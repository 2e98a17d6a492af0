/** Cluster status and cluster chains, on the sequence T of the entries of a FAT (fat.c). */
module FatChains {
  import opened Words
  import opened FatEntries

  datatype ClusterStatus = NotUsed | Allocated | Reserved | Defective | Final

  /** GetClusterStatus. Note that it takes max itself for an allocated cluster, although it has no entry. */
  function Status(t: FatType, max: nat, value: u16): ClusterStatus {
    if value == 0x0000 then NotUsed
    else if 2 <= value <= max then Allocated
    else
      match t
      case Fat12 => if 0xFF8 <= value <= 0xFFF then Final else if value == 0xFF7 then Defective else Reserved
      case Fat16 => if 0xFFF8 <= value <= 0xFFFF then Final else if value == 0xFFF7 then Defective else Reserved
  }

  /** The largest table whose cluster numbers stay below the defective and final markers. */
  predicate BelowMarkers(t: FatType, max: nat) {
    match t
    case Fat12 => max < 0xFF7
    case Fat16 => max < 0xFFF7
  }

  /** The final marker as it reads back after 0xFFFF has been stored. */
  function FinalMarker(t: FatType): u16 {
    Stored(t, 0xFFFF)
  }

  /**
   * Final markers have all bits set except perhaps the last three; the value in front of them is defective.
   * In a table of fewer entries all values up to the number of entries are clusters, except 0, which is free, and 1.
   */
  lemma StatusMeaning(t: FatType, max: nat, value: u16)
    requires BelowMarkers(t, max) && (t.Fat12? ==> value < 0x1000)
    ensures Status(t, max, value) == Final <==> value / 8 == if t.Fat12? then 0x1FF else 0x1FFF
    ensures Status(t, max, value) == Defective <==> value == if t.Fat12? then 0xFF7 else 0xFFF7
    ensures Status(t, max, value) == NotUsed <==> value == 0
    ensures Status(t, max, value) == Allocated <==> 1 < value <= max
    ensures FinalMarker(t) == if t.Fat12? then 0xFFF else 0xFFFF
  {
  }

  lemma FinalMarkerIsFinal(t: FatType, max: nat)
    requires BelowMarkers(t, max)
    ensures Status(t, max, FinalMarker(t)) == Final
  {
  }

  /** Following an allocated entry never leaves the table. */
  ghost predicate Closed(t: FatType, T: seq<u16>) {
    forall n :: 0 <= n < |T| && Status(t, |T|, T[n]) == Allocated ==> T[n] < |T|
  }

  function NonZero(T: seq<u16>): nat {
    if |T| == 0 then 0 else (if T[0] == 0 then 0 else 1) + NonZero(T[1..])
  }

  lemma {:induction false} NonZeroDrops(T: seq<u16>, n: nat)
    requires n < |T| && T[n] != 0
    ensures NonZero(T[n := 0]) == NonZero(T) - 1
  {
    if n == 0 {
      assert T[0 := 0][1..] == T[1..];
    } else {
      assert T[n := 0][1..] == T[1..][n - 1 := 0];
      NonZeroDrops(T[1..], n - 1);
    }
  }

  lemma ClosedKept(t: FatType, T: seq<u16>, n: nat)
    requires Closed(t, T) && n < |T|
    ensures Closed(t, T[n := 0])
  {
  }

  /** What FreeFATCluster makes of a table, and whether it returns TRUE. */
  ghost function Freed(t: FatType, T: seq<u16>, n: nat): (r: (seq<u16>, bool))
    requires Closed(t, T) && n < |T|
    ensures |r.0| == |T|
    decreases NonZero(T)
  {
    match Status(t, |T|, T[n])
    case NotUsed => (T, true)
    case Allocated =>
      NonZeroDrops(T, n);
      ClosedKept(t, T, n);
      Freed(t, T[n := 0], T[n])
    case Final => (T[n := 0], true)
    case _ => (T, false)
  }

  /** c is a chain of clusters: each entry holds the number of the next cluster, the last one a final marker. */
  ghost predicate IsChain(t: FatType, T: seq<u16>, c: seq<nat>) {
    && |c| > 0
    && (forall i :: 0 <= i < |c| ==> 2 <= c[i] < |T|)
    && (forall i :: 0 <= i < |c| - 1 ==> T[c[i]] == c[i + 1])
    && Status(t, |T|, T[c[|c| - 1]]) == Final
  }

  lemma ChainIsAllocated(t: FatType, T: seq<u16>, c: seq<nat>)
    requires IsChain(t, T, c)
    ensures forall i :: 0 <= i < |c| - 1 ==> Status(t, |T|, T[c[i]]) == Allocated
    ensures forall i :: 0 <= i < |c| ==> T[c[i]] != 0
  {
    forall i | 0 <= i < |c| - 1
      ensures Status(t, |T|, T[c[i]]) == Allocated
    {
      assert T[c[i]] == c[i + 1];
    }
  }

  /** A chain that ends in a final marker has no cycle. */
  lemma {:induction false} ChainIsAcyclic(t: FatType, T: seq<u16>, c: seq<nat>, i: nat, j: nat)
    requires IsChain(t, T, c) && i < j < |c|
    ensures c[i] != c[j]
    decreases |c| - j
  {
    if c[i] == c[j] {
      ChainIsAllocated(t, T, c);
      if j < |c| - 1 {
        ChainIsAcyclic(t, T, c, i + 1, j + 1);
      }
    }
  }

  /** T with the entries of all clusters of c set to zero. */
  ghost function Zeroed(T: seq<u16>, c: seq<nat>): (r: seq<u16>)
    ensures |r| == |T| && forall n :: 0 <= n < |T| ==> r[n] == (if n in c then 0 else T[n])
  {
    seq(|T|, n requires 0 <= n < |T| => if n in c then 0 else T[n])
  }

  /** The first cluster of a chain is freed, and the others are still a chain. */
  lemma FreedFirst(t: FatType, T: seq<u16>, c: seq<nat>)
    requires Closed(t, T) && IsChain(t, T, c)
    ensures var T1 := T[c[0] := 0];
            && Closed(t, T1)
            && (|c| == 1 ==> Freed(t, T, c[0]) == (T1, true))
            && (|c| > 1 ==> IsChain(t, T1, c[1..]) && Freed(t, T, c[0]) == Freed(t, T1, c[1]))
  {
    ClosedKept(t, T, c[0]);
    ChainIsAllocated(t, T, c);
    forall i | 1 <= i < |c|
      ensures c[0] != c[i]
    {
      ChainIsAcyclic(t, T, c, 0, i);
    }
  }

  /** Freeing a chain succeeds, zeroes exactly its clusters and leaves every other entry as it was. */
  lemma {:induction false} FreedChain(t: FatType, T: seq<u16>, c: seq<nat>)
    requires Closed(t, T) && IsChain(t, T, c)
    ensures Freed(t, T, c[0]) == (Zeroed(T, c), true)
    decreases |c|
  {
    hide Freed, Closed, Status;
    var T1, rest := T[c[0] := 0], c[1..];
    FreedFirst(t, T, c);
    assert c == [c[0]] + rest;
    if |c| == 1 {
      assert T1 == Zeroed(T, c);
    } else {
      FreedChain(t, T1, rest);
      assert Zeroed(T1, rest) == Zeroed(T, c);
    }
  }

  /** c is a way through allocated entries that visits no cluster twice. */
  ghost predicate IsPath(t: FatType, T: seq<u16>, c: seq<nat>) {
    && |c| > 0
    && (forall i :: 0 <= i < |c| ==> c[i] < |T|)
    && (forall i :: 0 <= i < |c| - 1 ==> T[c[i]] == c[i + 1] && Status(t, |T|, T[c[i]]) == Allocated)
    && (forall i, j :: 0 <= i < j < |c| ==> c[i] != c[j])
  }

  /**
   * Freeing a chain that is broken zeroes the clusters in front of the last one; it succeeds if the chain breaks off
   * with a free entry, and fails at a reserved or defective one.
   */
  lemma {:induction false} FreedBroken(t: FatType, T: seq<u16>, c: seq<nat>)
    requires Closed(t, T) && IsPath(t, T, c) && Status(t, |T|, T[c[|c| - 1]]) in {NotUsed, Reserved, Defective}
    ensures Freed(t, T, c[0]) == (Zeroed(T, c[..|c| - 1]), Status(t, |T|, T[c[|c| - 1]]) == NotUsed)
    decreases |c|
  {
    hide Closed, Status;
    if |c| == 1 {
      assert T == Zeroed(T, c[..0]);
    } else {
      var T1, rest := T[c[0] := 0], c[1..];
      PathGoesOn(t, T, c);
      FreedBroken(t, T1, rest);
      assert c[..|c| - 1] == [c[0]] + rest[..|rest| - 1];
      assert Zeroed(T1, rest[..|rest| - 1]) == Zeroed(T, c[..|c| - 1]);
    }
  }

  /** Freeing the first cluster of a path leaves the rest of it as it was. */
  lemma PathGoesOn(t: FatType, T: seq<u16>, c: seq<nat>)
    requires Closed(t, T) && IsPath(t, T, c) && |c| > 1
    ensures var T1 := T[c[0] := 0];
            && Closed(t, T1) && IsPath(t, T1, c[1..]) && T1[c[|c| - 1]] == T[c[|c| - 1]]
            && Freed(t, T, c[0]) == Freed(t, T1, c[1])
  {
    hide Closed, Status;
    ClosedKept(t, T, c[0]);
    var T1 := T[c[0] := 0];
    assert forall i :: 1 <= i < |c| ==> T1[c[i]] == T[c[i]];
  }

  /** There is a free cluster for GetFATFirstFreeCluster to find. */
  ghost predicate HasFree(T: seq<u16>) {
    exists n :: 2 <= n < |T| && T[n] == 0
  }

  /** n is the cluster that GetFATFirstFreeCluster finds. */
  ghost predicate IsFirstFree(T: seq<u16>, n: nat) {
    2 <= n < |T| && T[n] == 0 && forall m :: 2 <= m < n ==> T[m] != 0
  }
}
