/** Reading a file through a handle, and seeking (fat.c). */
module FatRead {
  import opened Arithmetic
  import opened Words
  import opened FatEntries
  import opened FatChains
  import opened FatRuns
  import opened FatDisk
  import opened FatContent
  import opened FatWrite

  /** The cluster a handle holds after fetching k clusters: the next one, or the final marker behind the last. */
  ghost function ClusterAt(fs: FileSys, f: nat, k: nat): nat
    requires fs.Valid() && f in fs.files && k <= |fs.files[f]|
    reads fs`files, fs.FAT.FATTable
  {
    ChainInTable(fs, f);
    if k < |fs.files[f]| then fs.files[f][k] else fs.FAT.T()[Last(fs.files[f])]
  }

  lemma ChainInTable(fs: FileSys, f: nat)
    requires fs.Valid() && f in fs.files
    ensures |fs.files[f]| > 0
    ensures forall i :: 0 <= i < |fs.files[f]| ==> 2 <= fs.files[f][i] < fs.FAT.MaxCluster
  {
    assert IsChain(fs.FAT.FATType, fs.FAT.T(), fs.files[f]);
  }

  /** The handle belongs to a saved file f with the bytes W, and its fields fit together. */
  ghost predicate Attached(fs: FileSys, fd: FileHandle, f: nat, W: seq<u8>)
    reads fs`files, fs.FAT.FATTable, fs.card, fd
  {
    && HandleOk(fs, fd, f)
    && |fs.files[f]| > 0 && fd.StartCluster == fs.files[f][0]
    && fd.FileTotalSize == |W| && W <= Bytes(fs, f)
    && fd.Pos <= |W| && fd.ClusterBufOffset < fs.ClusterSize() && fd.fetched <= |fs.files[f]|
    && fd.CurrCluster == ClusterAt(fs, f, fd.fetched)
  }

  /** What the clusters from number k of the chain on hold. */
  ghost function BytesFrom(fs: FileSys, f: nat, k: nat): seq<u8>
    requires fs.Valid() && f in fs.files && k <= |fs.files[f]|
    reads fs`files, fs.FAT.FATTable, fs.card
  {
    ChainFacts(fs, f);
    Content(fs.D(), fs.files[f][k..])
  }

  /** The rest of W is what is left in the buffer followed by the clusters not fetched yet. */
  ghost predicate Ahead(fs: FileSys, fd: FileHandle, f: nat, W: seq<u8>, unread: seq<u8>)
    requires Attached(fs, fd, f, W)
    reads fs`files, fs.FAT.FATTable, fs.card, fd
  {
    W[fd.Pos..] <= unread + BytesFrom(fs, f, fd.fetched)
  }

  /** ClusterBuf holds the cluster fetched last. */
  ghost predicate Loaded(fs: FileSys, fd: FileHandle, f: nat, W: seq<u8>)
    requires Attached(fs, fd, f, W)
    reads fs`files, fs.FAT.FATTable, fs.card, fd, fd.ClusterBuf
  {
    ChainInTable(fs, f);
    fd.fetched > 0 && fd.ClusterBuf[..] == fs.D()[fs.files[f][fd.fetched - 1]]
  }

  /** The state between calls of ReadFATFile and SeekFATFile. */
  ghost predicate Reading(fs: FileSys, fd: FileHandle, f: nat, W: seq<u8>)
    reads fs`files, fs.FAT.FATTable, fs.card, fd, fd.ClusterBuf
  {
    && Attached(fs, fd, f, W)
    && if fd.ClusterBufOffset == 0 then Ahead(fs, fd, f, W, [])
       else Loaded(fs, fd, f, W) && Ahead(fs, fd, f, W, fd.ClusterBuf[fd.ClusterBufOffset..])
  }

  /** The state inside a turn of ReadFATFile, with data in the buffer. */
  ghost predicate ReadingLoaded(fs: FileSys, fd: FileHandle, f: nat, W: seq<u8>)
    reads fs`files, fs.FAT.FATTable, fs.card, fd, fd.ClusterBuf
  {
    && Attached(fs, fd, f, W)
    && Loaded(fs, fd, f, W) && Ahead(fs, fd, f, W, fd.ClusterBuf[fd.ClusterBufOffset..])
  }

  /** The position fields of a handle at Pos are a function of Pos, and so is the buffer unless Pos is 0. */
  ghost predicate Canonical(fs: FileSys, fd: FileHandle, f: nat, W: seq<u8>)
    requires Attached(fs, fd, f, W)
    reads fs`files, fs.FAT.FATTable, fs.card, fd, fd.ClusterBuf
  {
    && (fd.fetched, fd.ClusterBufOffset) == SeekPos(fs.ClusterSize(), fd.Pos)
    && (fd.Pos > 0 ==> Loaded(fs, fd, f, W))
  }

  ghost predicate CanonicalReading(fs: FileSys, fd: FileHandle, f: nat, W: seq<u8>)
    reads fs`files, fs.FAT.FATTable, fs.card, fd, fd.ClusterBuf
  {
    Reading(fs, fd, f, W) && Canonical(fs, fd, f, W)
  }

  lemma BytesFromHead(fs: FileSys, f: nat, k: nat)
    requires fs.Valid() && f in fs.files && k < |fs.files[f]|
    ensures 2 <= fs.files[f][k] < |fs.D()|
    ensures BytesFrom(fs, f, k) == fs.D()[fs.files[f][k]] + BytesFrom(fs, f, k + 1)
  {
    ChainFacts(fs, f);
    assert fs.files[f][k..][1..] == fs.files[f][k + 1..];
  }

  lemma ChainStatus(fs: FileSys, f: nat, k: nat)
    requires fs.Valid() && f in fs.files && k <= |fs.files[f]|
    ensures ClusterAt(fs, f, k) < 0x1_0000
    ensures Status(fs.FAT.FATType, fs.FAT.MaxCluster, ClusterAt(fs, f, k)) ==
            (if k < |fs.files[f]| then Allocated else Final)
    ensures k < |fs.files[f]| ==> fs.FAT.T()[fs.files[f][k]] == ClusterAt(fs, f, k + 1)
  {
    ChainInTable(fs, f);
    assert IsChain(fs.FAT.FATType, fs.FAT.T(), fs.files[f]);
    assert BelowMarkers(fs.FAT.FATType, fs.FAT.MaxCluster);
  }

  /** "read one cluster", and "move CurrCluster to next cluster"; fails if the current cluster is not allocated. */
  method Fetch(fs: FileSys, fd: FileHandle, ghost f: nat, ghost W: seq<u8>) returns (ok: bool)
    requires Reading(fs, fd, f, W) && fd.ClusterBufOffset == 0
    modifies fd`CurrCluster, fd`fetched, fd.ClusterBuf
    ensures fs.Vol() == old(fs.Vol()) && fs.D() == old(fs.D())
    ensures ok ==> ReadingLoaded(fs, fd, f, W) && fd.fetched == old(fd.fetched) + 1
    ensures !ok ==> Reading(fs, fd, f, W) && fd.Pos == |W|
  {
    hide Good, Entries, Clusters, Addr, Content;
    ghost var k := fd.fetched;
    ChainStatus(fs, f, k);
    if Status(fs.FAT.FATType, fs.FAT.MaxCluster, fd.CurrCluster) != Allocated {
      BytesFromEnd(fs, f);
      return false;
    }
    BytesFromHead(fs, f, k);
    ChainInTable(fs, f);
    fs.ReadCluster(fd.CurrCluster, fd.ClusterBuf);
    fd.CurrCluster := fs.FAT.GetFATNextCluster(fd.CurrCluster);
    fd.fetched := k + 1;
    ok := true;
  }

  lemma BytesFromEnd(fs: FileSys, f: nat)
    requires fs.Valid() && f in fs.files
    ensures BytesFrom(fs, f, |fs.files[f]|) == []
  {
  }

  /** `memcpy(Buf, fd->ClusterBuf + fd->ClusterBufOffset, WLen)` */
  method CopyOut(fd: FileHandle, WLen: nat, Buf: array<u8>, at: nat)
    requires fd.ClusterBufOffset + WLen <= fd.ClusterBuf.Length && at + WLen <= Buf.Length && Buf != fd.ClusterBuf
    modifies Buf
    ensures Buf[..] == old(Buf[..at]) + fd.ClusterBuf[fd.ClusterBufOffset..fd.ClusterBufOffset + WLen] + old(Buf[at + WLen..])
  {
    var o := fd.ClusterBufOffset;
    forall i | 0 <= i < WLen {
      Buf[at + i] := fd.ClusterBuf[o + i];
    }
  }

  /** Moves the position of the handle by WLen bytes within the buffer. */
  method Advance(fs: FileSys, fd: FileHandle, WLen: nat, ghost f: nat, ghost W: seq<u8>)
    requires ReadingLoaded(fs, fd, f, W)
    requires fd.ClusterBufOffset + WLen <= fs.ClusterSize() && fd.Pos + WLen <= |W|
    requires WLen == 0 ==> fd.Pos == |W|
    modifies fd`Pos, fd`ClusterBufOffset
    ensures Reading(fs, fd, f, W) && Loaded(fs, fd, f, W) && fd.Pos == old(fd.Pos) + WLen
    ensures fd.ClusterBufOffset ==
              if old(fd.ClusterBufOffset) + WLen == fs.ClusterSize() then 0 else old(fd.ClusterBufOffset) + WLen
    ensures W[old(fd.Pos)..fd.Pos] == fd.ClusterBuf[old(fd.ClusterBufOffset)..old(fd.ClusterBufOffset) + WLen]
  {
    hide Good, Entries, Clusters, Addr, Content;
    ghost var o, p, unread := fd.ClusterBufOffset, fd.Pos, fd.ClusterBuf[fd.ClusterBufOffset..];
    AheadSplit(W[p..], unread, BytesFrom(fs, f, fd.fetched), WLen);
    assert W[p..][WLen..] == W[p + WLen..] && W[p..][..WLen] == W[p..p + WLen];
    assert unread[WLen..] == fd.ClusterBuf[o + WLen..] && unread[..WLen] == fd.ClusterBuf[o..o + WLen];
    fd.Pos := fd.Pos + WLen;
    fd.ClusterBufOffset := fd.ClusterBufOffset + WLen;
    if fd.ClusterBufOffset == fd.ClusterBuf.Length {
      fd.ClusterBufOffset := 0;
    }
  }

  lemma AheadSplit(w: seq<u8>, unread: seq<u8>, rest: seq<u8>, n: nat)
    requires w <= unread + rest && n <= |unread| && n <= |w|
    ensures w[..n] == unread[..n] && w[n..] <= unread[n..] + rest
    ensures n == |unread| ==> w[n..] <= rest
    ensures n == |w| ==> w[n..] == []
  {
  }

  /** One turn of ReadFATFile; not ok if there is no cluster to fetch, which happens only at the end of the file. */
  method ReadTurn(fs: FileSys, fd: FileHandle, Len: nat, Buf: array<u8>, at: nat, ghost f: nat, ghost W: seq<u8>)
    returns (ok: bool, WLen: nat)
    requires Reading(fs, fd, f, W) && |W| + fs.ClusterSize() < 0x1_0000_0000
    requires 0 < Len && at + Len <= Buf.Length
    requires Buf != fd.ClusterBuf && Buf != fs.card && Buf != fs.FAT.FATTable
    modifies fd, fd.ClusterBuf, Buf
    ensures fs.Vol() == old(fs.Vol()) && fs.D() == old(fs.D())
    ensures Reading(fs, fd, f, W) && WLen <= Len && old(fd.Pos) + WLen == fd.Pos
    ensures Buf[..] == old(Buf[..at]) + W[old(fd.Pos)..fd.Pos] + old(Buf[at + WLen..])
    ensures (!ok ==> WLen == 0) && (WLen == 0 ==> fd.Pos == |W|)
    ensures old(CanonicalReading(fs, fd, f, W)) && old(fd.Pos) < |W| ==> CanonicalReading(fs, fd, f, W)
  {
    hide Good, Entries, Clusters, Addr, Content, Ahead, Bytes, SeekPos;
    if fd.ClusterBufOffset == 0 {
      ok := Fetch(fs, fd, f, W);
      if !ok {
        assert Buf[..] == Buf[..at] + [] + Buf[at..];
        return false, 0;
      }
    }
    ghost var p, o := fd.Pos, fd.ClusterBufOffset;
    WLen := if Len < fd.ClusterBuf.Length - fd.ClusterBufOffset then Len else fd.ClusterBuf.Length - fd.ClusterBufOffset;
    var end: u32 := fd.Pos + WLen;
    if end > fd.FileTotalSize {
      WLen := fd.FileTotalSize - fd.Pos;
    }
    CopyOut(fd, WLen, Buf, at);
    Advance(fs, fd, WLen, f, W);
    if WLen > 0 && SeekPos(fs.ClusterSize(), p).1 == o {
      SeekPosAdvance(fs.ClusterSize(), p, WLen);
    }
    ok := true;
  }

  /** Reads up to Count bytes into Buf; returns how many bytes are missing because the file ends. */
  method ReadFATFile(fs: FileSys, fd: FileHandle, Count: nat, Buf: array<u8>, ghost f: nat, ghost W: seq<u8>)
    returns (Len: nat)
    requires Reading(fs, fd, f, W) && |W| + fs.ClusterSize() < 0x1_0000_0000
    requires Count <= Buf.Length
    requires Buf != fd.ClusterBuf && Buf != fs.card && Buf != fs.FAT.FATTable
    modifies fd, fd.ClusterBuf, Buf
    ensures fs.Vol() == old(fs.Vol()) && fs.D() == old(fs.D())
    ensures Reading(fs, fd, f, W)
    ensures Count - Len == fd.Pos - old(fd.Pos) && (Len == 0 || fd.Pos == |W|)
    ensures 0 <= Len <= Count && old(fd.Pos) <= fd.Pos
    ensures Buf[..] == W[old(fd.Pos)..fd.Pos] + old(Buf[..])[Count - Len..]
    ensures old(CanonicalReading(fs, fd, f, W)) && (old(fd.Pos) < |W| || Count == 0) ==> CanonicalReading(fs, fd, f, W)
  {
    hide Good, Entries, Clusters, Addr, Reading, CanonicalReading, Delivered, FileSys.D, FileSys.Vol, Content, Bytes,
      FileSys.Valid;
    Len := Count;
    ghost var p, buf, canonical := fd.Pos, Buf[..], CanonicalReading(fs, fd, f, W);
    ReadingFacts(fs, fd, f, W);
    NothingDelivered(W, buf, p);
    while Len > 0
      invariant Reading(fs, fd, f, W) && fs.Valid() && fs.D() == old(fs.D()) && fs.Vol() == old(fs.Vol())
      invariant 0 <= Len <= Count && fd.Pos == p + Count - Len && fd.Pos <= |W|
      invariant Delivered(W, buf, p, fd.Pos, Buf[..])
      invariant Len > 0 && p < |W| ==> fd.Pos < |W|
      invariant canonical && (p < |W| || Count == 0) ==> CanonicalReading(fs, fd, f, W)
      decreases Len
    {
      var stop;
      Len, stop := ReadStep(fs, fd, Len, Buf, Count - Len, f, W, p, buf);
      if stop {
        break;
      }
    }
    AllDelivered(W, buf, p, fd.Pos, Buf[..]);
  }

  /** A turn of ReadFATFile, on a buffer that already has the bytes from p on. */
  method ReadStep(fs: FileSys, fd: FileHandle, Len: nat, Buf: array<u8>, at: nat, ghost f: nat, ghost W: seq<u8>,
                  ghost p: nat, ghost buf: seq<u8>)
    returns (Len': nat, stop: bool)
    requires Reading(fs, fd, f, W) && |W| + fs.ClusterSize() < 0x1_0000_0000
    requires 0 < Len && at + Len <= Buf.Length && |buf| == Buf.Length
    requires Buf != fd.ClusterBuf && Buf != fs.card && Buf != fs.FAT.FATTable
    requires Delivered(W, buf, p, fd.Pos, Buf[..]) && at == fd.Pos - p
    modifies fd, fd.ClusterBuf, Buf
    ensures fs.Valid() && fs.Vol() == old(fs.Vol()) && fs.D() == old(fs.D())
    ensures Reading(fs, fd, f, W) && Len' <= Len && Len - Len' == fd.Pos - old(fd.Pos) && fd.Pos <= |W|
    ensures Delivered(W, buf, p, fd.Pos, Buf[..])
    ensures if stop then fd.Pos == |W| else Len' < Len && fd.Pos < |W|
    ensures old(CanonicalReading(fs, fd, f, W)) && old(fd.Pos) < |W| ==> CanonicalReading(fs, fd, f, W)
  {
    hide Good, Entries, Clusters, Addr, Reading, CanonicalReading, Delivered, FileSys.D, FileSys.Vol;
    ReadingFacts(fs, fd, f, W);
    ghost var q, buf1 := fd.Pos, Buf[..];
    var ok, WLen := ReadTurn(fs, fd, Len, Buf, at, f, W);
    ReadingFacts(fs, fd, f, W);
    Len' := Len - WLen;
    ReadOn(W, buf, p, q, fd.Pos, buf1, Buf[..]);
    stop := !ok || fd.FileTotalSize == fd.Pos;
  }

  lemma ReadingFacts(fs: FileSys, fd: FileHandle, f: nat, W: seq<u8>)
    requires Reading(fs, fd, f, W)
    ensures fs.Valid() && fs.FAT.Valid() && fd.Pos <= |W| == fd.FileTotalSize
    ensures fs.FAT.MaxCluster >= 2 && Addr(fs.Base(), fs.ClusterSize(), fs.FAT.MaxCluster) <= fs.card.Length
  {
  }

  /** W[p..q] has been copied to the start of the buffer that held buf. */
  ghost predicate Delivered(W: seq<u8>, buf: seq<u8>, p: nat, q: nat, now: seq<u8>) {
    p <= q <= |W| && q - p <= |buf| && now == W[p..q] + buf[q - p..]
  }

  lemma NothingDelivered(W: seq<u8>, buf: seq<u8>, p: nat)
    requires p <= |W|
    ensures Delivered(W, buf, p, p, buf)
  {
  }

  lemma AllDelivered(W: seq<u8>, buf: seq<u8>, p: nat, q: nat, now: seq<u8>)
    requires Delivered(W, buf, p, q, now)
    ensures p <= q <= |W| && q - p <= |buf| && now == W[p..q] + buf[q - p..]
  {
  }

  lemma ReadOn(W: seq<u8>, buf: seq<u8>, p: nat, q: nat, r: nat, buf1: seq<u8>, now: seq<u8>)
    requires Delivered(W, buf, p, q, buf1) && q <= r <= |W| && r - p <= |buf| == |buf1|
    requires now == buf1[..q - p] + W[q..r] + buf1[r - p..]
    ensures Delivered(W, buf, p, r, now)
  {
  }

  lemma AllBytesFromStart(fs: FileSys, f: nat)
    requires fs.Valid() && f in fs.files
    ensures BytesFrom(fs, f, 0) == Bytes(fs, f)
  {
    assert fs.files[f][0..] == fs.files[f];
  }

  /** A handle at the start of the file. */
  lemma AtStart(fs: FileSys, fd: FileHandle, f: nat, W: seq<u8>)
    requires Attached(fs, fd, f, W) && fd.Pos == 0 && fd.ClusterBufOffset == 0 && fd.fetched == 0
    ensures CanonicalReading(fs, fd, f, W)
  {
    AllBytesFromStart(fs, f);
    assert W[0..] == W;
  }

  /** Opens a file for reading. */
  method OpenFATFile(fs: FileSys, entry: DirEntry, ghost f: nat, ghost W: seq<u8>) returns (fd: FileHandle)
    requires Saved(fs, entry, f, W)
    ensures fresh(fd) && fresh(fd.ClusterBuf) && fd.Pos == 0
    ensures CanonicalReading(fs, fd, f, W) && fs.Vol() == old(fs.Vol()) && fs.D() == old(fs.D())
  {
    hide Good, Entries, Clusters, Addr, Reading, CanonicalReading;
    ChainInTable(fs, f);
    fd := new FileHandle(entry.StartCluster, entry.FileLength, fs.ClusterSize());
    AtStart(fs, fd, f, W);
  }

  /** Where SeekFATFile goes: positions past the end are reduced by the length of the file. */
  function SeekTarget(p: nat, total: nat): (r: nat)
    requires total > 0 || p == 0
    ensures r <= total && (p <= total ==> r == p)
    ensures p > 0 ==> r == (p - 1) % total + 1
    decreases p
  {
    if p > total then
      ModLess(p - 1, total);
      SeekTarget(p - total, total)
    else p
  }

  lemma ModLess(x: nat, n: nat)
    requires 0 < n <= x
    ensures x % n == (x - n) % n
  {
    var q, r := DivDef(x - n, n);
    Div(q + 1, r, n);
  }

  /** One turn of the loop of SeekFATFile: fetch a cluster and go WLen bytes into it. */
  method SeekStep(fs: FileSys, fd: FileHandle, WLen: nat, ghost f: nat, ghost W: seq<u8>) returns (ok: bool)
    requires CanonicalReading(fs, fd, f, W) && fd.ClusterBufOffset == 0
    requires 0 < WLen <= fs.ClusterSize() && fd.Pos + WLen <= |W|
    modifies fd, fd.ClusterBuf
    ensures ok && CanonicalReading(fs, fd, f, W) && fd.Pos == old(fd.Pos) + WLen
    ensures fd.ClusterBufOffset == (if WLen == fs.ClusterSize() then 0 else WLen)
    ensures fs.Vol() == old(fs.Vol()) && fs.D() == old(fs.D())
  {
    hide Good, Entries, Clusters, Addr, Ahead, Content, Bytes, SeekPos;
    SeekPosAdvance(fs.ClusterSize(), fd.Pos, WLen);
    ok := Fetch(fs, fd, f, W);
    if ok {
      Advance(fs, fd, WLen, f, W);
    }
  }

  lemma SeekFacts(fs: FileSys, fd: FileHandle, f: nat, W: seq<u8>)
    requires Reading(fs, fd, f, W)
    ensures HandleOk(fs, fd, f) && |fs.files[f]| > 0 && fd.StartCluster == fs.files[f][0]
    ensures fd.FileTotalSize == |W| && W <= Bytes(fs, f)
  {
  }

  /** `fd->CurrCluster = fd->StartCluster; fd->Pos = 0; fd->ClusterBufOffset = 0;` */
  method Rewind(fs: FileSys, fd: FileHandle, ghost f: nat, ghost W: seq<u8>)
    requires Reading(fs, fd, f, W)
    modifies fd
    ensures CanonicalReading(fs, fd, f, W) && fd.Pos == fd.ClusterBufOffset == 0
  {
    hide Good, Entries, Clusters, Addr, CanonicalReading;
    ChainInTable(fs, f);
    fd.CurrCluster := fd.StartCluster;
    fd.Pos := 0;
    fd.ClusterBufOffset := 0;
    fd.fetched := 0;
    AtStart(fs, fd, f, W);
  }

  /** `while(Pos > fd->FileTotalSize) Pos -= fd->FileTotalSize;` */
  method ReducePosition(position: u32, total: u32) returns (Pos: u32)
    requires total > 0 || position == 0
    ensures Pos == SeekTarget(position, total)
  {
    Pos := position;
    while Pos > total
      invariant SeekTarget(Pos, total) == SeekTarget(position, total)
      invariant total > 0 || Pos == 0
    {
      Pos := Pos - total;
    }
  }

  /** Goes to a position from the start of the file, whatever the handle has been used for before. */
  method SeekFATFile(fs: FileSys, fd: FileHandle, position: u32, ghost f: nat, ghost W: seq<u8>) returns (ok: bool)
    requires Reading(fs, fd, f, W) && (|W| > 0 || position == 0)
    modifies fd, fd.ClusterBuf
    ensures ok && CanonicalReading(fs, fd, f, W) && fd.Pos == SeekTarget(position, |W|)
    ensures fs.Vol() == old(fs.Vol()) && fs.D() == old(fs.D())
  {
    hide Good, Entries, Clusters, Addr, Reading, CanonicalReading, FileSys.D, FileSys.Vol;
    SeekFacts(fs, fd, f, W);
    var Pos := ReducePosition(position, fd.FileTotalSize);
    ghost var target := Pos;
    Rewind(fs, fd, f, W);
    CanonicalFacts(fs, fd, f, W);
    while Pos > 0
      invariant CanonicalReading(fs, fd, f, W) && fs.Valid() && fs.D() == old(fs.D()) && fs.Vol() == old(fs.Vol())
      invariant 0 <= Pos && fd.Pos + Pos == target <= |W| && (Pos > 0 ==> fd.ClusterBufOffset == 0)
      decreases Pos
    {
      CanonicalFacts(fs, fd, f, W);
      var WLen := if Pos < fd.ClusterBuf.Length then Pos else fd.ClusterBuf.Length;
      ok := SeekStep(fs, fd, WLen, f, W);
      if !ok {
        return false;
      }
      CanonicalFacts(fs, fd, f, W);
      Pos := Pos - WLen;
    }
    ok := true;
  }

  lemma CanonicalFacts(fs: FileSys, fd: FileHandle, f: nat, W: seq<u8>)
    requires CanonicalReading(fs, fd, f, W)
    ensures fs.Valid() && Reading(fs, fd, f, W) && fd.ClusterBuf.Length == fs.ClusterSize() > 0
  {
  }

  /** The fields that say where a handle is. */
  ghost predicate SamePosition(fd: FileHandle, fd': FileHandle)
    reads fd, fd', fd.ClusterBuf, fd'.ClusterBuf
  {
    && fd.Pos == fd'.Pos && fd.ClusterBufOffset == fd'.ClusterBufOffset && fd.CurrCluster == fd'.CurrCluster
    && (fd.Pos > 0 ==> fd.ClusterBuf[..] == fd'.ClusterBuf[..])
  }

  /** Two handles on the same file at the same canonical position agree: seeking is the same as reading up to there. */
  lemma CanonicalIsUnique(fs: FileSys, fd: FileHandle, fd': FileHandle, f: nat, W: seq<u8>)
    requires CanonicalReading(fs, fd, f, W) && CanonicalReading(fs, fd', f, W) && fd.Pos == fd'.Pos
    ensures SamePosition(fd, fd')
  {
  }

  /**
   * A handle that has been used in any way and is then moved to p ends up exactly as a fresh handle that has read p bytes.
   */
  method SeekIsRead(fs: FileSys, entry: DirEntry, fd: FileHandle, p: u32, Buf: array<u8>, ghost f: nat, ghost W: seq<u8>)
    returns (fd': FileHandle)
    requires Reading(fs, fd, f, W) && Saved(fs, entry, f, W) && |W| + fs.ClusterSize() < 0x1_0000_0000
    requires p <= |W| && |W| > 0 && Buf.Length >= p
    requires Buf != fd.ClusterBuf && Buf != fs.card && Buf != fs.FAT.FATTable
    modifies fd, fd.ClusterBuf, Buf
    ensures fresh(fd') && fd'.Pos == p && SamePosition(fd, fd')
    ensures Buf[..p] == W[..p]
  {
    hide Good, Entries, Clusters, Addr, Reading, CanonicalReading, FileSys.D, FileSys.Vol;
    var ok := SeekFATFile(fs, fd, p, f, W);
    fd' := OpenFATFile(fs, entry, f, W);
    CanonicalFacts(fs, fd', f, W);
    var missing := ReadFATFile(fs, fd', p, Buf, f, W);
    CanonicalIsUnique(fs, fd, fd', f, W);
  }
}
