/** Runs of cluster operations on a volume: what they keep of every file. */
module FatRuns {
  import opened Words
  import opened FatEntries
  import opened FatChains

  /** A FAT together with the chains of the files that live on it. */
  datatype Volume = Volume(T: seq<u16>, files: map<nat, seq<nat>>)

  /** CreateFATNextEmptyFile, the end of a turn of WriteFATFile, OpenFATEmptyFile on an old file, DeleteFATFile. */
  datatype Op = Create(f: nat) | Append(f: nat) | Truncate(f: nat) | Delete(f: nat)

  function Last(c: seq<nat>): nat
    requires |c| > 0
  {
    c[|c| - 1]
  }

  /** A new file gets cluster n. */
  ghost function Created(t: FatType, v: Volume, f: nat, n: nat): Volume
    requires n < |v.T|
  {
    Volume(v.T[n := FinalMarker(t)], v.files[f := [n]])
  }

  /** Cluster n is marked final and then linked behind the last cluster of the file. */
  ghost function Appended(t: FatType, v: Volume, f: nat, n: u16): Volume
    requires f in v.files && |v.files[f]| > 0 && n < |v.T| && Last(v.files[f]) < |v.T|
  {
    Volume(v.T[n := FinalMarker(t)][Last(v.files[f]) := Stored(t, n)], v.files[f := v.files[f] + [n as nat]])
  }

  ghost function Deleted(t: FatType, v: Volume, f: nat): Volume
    requires Closed(t, v.T) && f in v.files && |v.files[f]| > 0 && v.files[f][0] < |v.T|
  {
    Volume(Freed(t, v.T, v.files[f][0]).0, v.files - {f})
  }

  ghost predicate Step(t: FatType, v: Volume, op: Op, v': Volume)
    requires Good(t, v)
  {
    match op
    case Create(f) => f !in v.files && exists n: nat :: IsFirstFree(v.T, n) && v' == Created(t, v, f, n)
    case Append(f) => f in v.files && exists n: u16 :: IsFirstFree(v.T, n) && v' == Appended(t, v, f, n)
    case Truncate(f) =>
      f in v.files
      && exists n: nat :: IsFirstFree(Deleted(t, v, f).T, n) && v' == Created(t, Deleted(t, v, f), f, n)
    case Delete(f) => f in v.files && v' == Deleted(t, v, f)
  }

  /** Every file has a chain, and no cluster belongs to two files. */
  ghost predicate Good(t: FatType, v: Volume) {
    && BelowMarkers(t, |v.T|) && Closed(t, v.T)
    && (forall f :: f in v.files ==> IsChain(t, v.T, v.files[f]))
    && (forall f, g :: f in v.files && g in v.files && f != g ==> Disjoint(v.files[f], v.files[g]))
  }

  ghost predicate Disjoint(c: seq<nat>, d: seq<nat>) {
    forall i :: 0 <= i < |c| ==> c[i] !in d
  }

  ghost predicate Owned(v: Volume, n: nat) {
    exists f :: f in v.files && n in v.files[f]
  }

  ghost function Free(v: Volume): set<nat> {
    set n | 2 <= n < |v.T| && v.T[n] == 0
  }

  ghost function Used(v: Volume): set<nat> {
    set n | 2 <= n < |v.T| && Owned(v, n)
  }

  /** The clusters that belong to no file and are not free: reserved, defective, or lost. */
  ghost predicate Foreign(v: Volume, n: nat) {
    n < |v.T| && n !in Free(v) && n !in Used(v)
  }

  /** No cluster is lost or created, and entries outside the files and the free space are not touched. */
  ghost predicate Conserves(v: Volume, v': Volume) {
    && |v'.T| == |v.T|
    && Free(v') + Used(v') == Free(v) + Used(v)
    && forall n :: 0 <= n < |v.T| && Foreign(v, n) ==> v'.T[n] == v.T[n]
  }

  lemma UsedIsNotFree(t: FatType, v: Volume)
    requires Good(t, v)
    ensures Free(v) !! Used(v)
    ensures |Free(v) + Used(v)| == |Free(v)| + |Used(v)|
  {
    forall n | n in Used(v)
      ensures v.T[n] != 0
    {
      var f :| f in v.files && n in v.files[f];
      ChainIsAllocated(t, v.T, v.files[f]);
    }
  }

  /** A chain does not notice changes of entries it does not contain. */
  lemma ChainFrame(t: FatType, T: seq<u16>, T': seq<u16>, c: seq<nat>)
    requires IsChain(t, T, c) && |T'| == |T|
    requires forall i :: 0 <= i < |c| ==> T'[c[i]] == T[c[i]]
    ensures IsChain(t, T', c)
  {
  }

  /** The clusters file f has. */
  ghost function Chain(v: Volume, f: nat): seq<nat> {
    if f in v.files then v.files[f] else []
  }

  /** v' is v with the chain of f replaced by c': f gives clusters back or takes free ones. */
  ghost predicate Replaces(t: FatType, v: Volume, f: nat, c': seq<nat>, v': Volume) {
    var c := Chain(v, f);
    && |v'.T| == |v.T|
    && v'.files == (if |c'| == 0 then v.files - {f} else v.files[f := c'])
    && (forall m :: 0 <= m < |v.T| && m !in c && m !in c' ==> v'.T[m] == v.T[m])
    && (forall m :: 0 <= m < |v.T| && m in c && m !in c' ==> v'.T[m] == 0)
    && (forall i :: 0 <= i < |c'| ==> c'[i] < |v.T| && (c'[i] in c || v.T[c'[i]] == 0))
    && (|c'| > 0 ==> IsChain(t, v'.T, c'))
    && Closed(t, v'.T)
  }

  /** Another file owns none of the clusters concerned. */
  lemma OthersApart(t: FatType, v: Volume, f: nat, c': seq<nat>, v': Volume, g: nat)
    requires Good(t, v) && Replaces(t, v, f, c', v') && g in v.files && g != f
    ensures Disjoint(v.files[g], Chain(v, f)) && Disjoint(v.files[g], c') && Disjoint(c', v.files[g])
    ensures forall i :: 0 <= i < |v.files[g]| ==> v'.T[v.files[g][i]] == v.T[v.files[g][i]]
  {
    var d := v.files[g];
    ChainIsAllocated(t, v.T, d);
    forall i | 0 <= i < |d|
      ensures d[i] !in Chain(v, f) && d[i] !in c'
    {
    }
  }

  lemma ReplacesIsGood(t: FatType, v: Volume, f: nat, c': seq<nat>, v': Volume)
    requires Good(t, v) && Replaces(t, v, f, c', v')
    ensures Good(t, v')
  {
    forall g | g in v'.files
      ensures IsChain(t, v'.T, v'.files[g])
    {
      if g != f {
        OthersApart(t, v, f, c', v', g);
        ChainFrame(t, v.T, v'.T, v.files[g]);
      }
    }
    forall g, h | g in v'.files && h in v'.files && g != h
      ensures Disjoint(v'.files[g], v'.files[h])
    {
      if g == f {
        OthersApart(t, v, f, c', v', h);
      } else if h == f {
        OthersApart(t, v, f, c', v', g);
      }
    }
  }

  /** Where a cluster is before and after the replacement. */
  lemma ReplacesAt(t: FatType, v: Volume, f: nat, c': seq<nat>, v': Volume, n: nat)
    requires Good(t, v) && Replaces(t, v, f, c', v') && 2 <= n < |v.T|
    ensures (n in Free(v') || Owned(v', n)) <==> (n in Free(v) || Owned(v, n))
    ensures n !in Free(v) && !Owned(v, n) ==> v'.T[n] == v.T[n]
  {
    if n in c' {
      assert f in v'.files && Owned(v', n);
      if n in Chain(v, f) {
        assert Owned(v, n);
      }
    } else if n in Chain(v, f) {
      assert Owned(v, n);
    } else if g :| g in v.files && n in v.files[g] {
      assert g in v'.files && v'.files[g] == v.files[g];
      assert Owned(v', n) && Owned(v, n);
    }
  }

  lemma ReplacesConserves(t: FatType, v: Volume, f: nat, c': seq<nat>, v': Volume)
    requires Good(t, v) && Replaces(t, v, f, c', v')
    ensures Conserves(v, v')
  {
    forall n: nat | 2 <= n < |v.T|
      ensures n in Free(v') + Used(v') <==> n in Free(v) + Used(v)
      ensures Foreign(v, n) ==> v'.T[n] == v.T[n]
    {
      ReplacesAt(t, v, f, c', v', n);
    }
    assert forall n :: n in Free(v') + Used(v') ==> 2 <= n < |v.T|;
    ChainsStartAtTwo(t, v, f, c', v');
  }

  /** Entries 0 and 1 are never touched. */
  lemma ChainsStartAtTwo(t: FatType, v: Volume, f: nat, c': seq<nat>, v': Volume)
    requires Good(t, v) && Replaces(t, v, f, c', v')
    ensures forall n :: 0 <= n < 2 && n < |v.T| ==> v'.T[n] == v.T[n]
  {
    forall n | 0 <= n < 2 && n < |v.T|
      ensures n !in Chain(v, f) && n !in c'
    {
    }
  }

  lemma NewChain(t: FatType, T: seq<u16>, n: nat)
    requires BelowMarkers(t, |T|) && Closed(t, T) && IsFirstFree(T, n)
    ensures Closed(t, T[n := FinalMarker(t)]) && IsChain(t, T[n := FinalMarker(t)], [n])
  {
    FinalMarkerIsFinal(t, |T|);
  }

  lemma CreateReplaces(t: FatType, v: Volume, f: nat, n: nat)
    requires Good(t, v) && IsFirstFree(v.T, n) && f !in v.files
    ensures Replaces(t, v, f, [n], Created(t, v, f, n))
  {
    NewChain(t, v.T, n);
  }

  lemma ZeroedIsClosed(t: FatType, T: seq<u16>, c: seq<nat>)
    requires Closed(t, T)
    ensures Closed(t, Zeroed(T, c))
  {
  }

  /** Deleting frees the chain and nothing else, and FreeFATCluster returns TRUE. */
  lemma DeleteReplaces(t: FatType, v: Volume, f: nat)
    requires Good(t, v) && f in v.files
    ensures Replaces(t, v, f, [], Deleted(t, v, f))
    ensures Freed(t, v.T, v.files[f][0]).1
  {
    FreedChain(t, v.T, v.files[f]);
    ZeroedIsClosed(t, v.T, v.files[f]);
  }

  /** Giving all clusters back and then taking one is a replacement too. */
  lemma ReplacesThenCreate(t: FatType, v: Volume, f: nat, v1: Volume, n: nat)
    requires Replaces(t, v, f, [], v1) && n < |v1.T| && v1.T[n] == 0
    requires Closed(t, v1.T[n := FinalMarker(t)]) && IsChain(t, v1.T[n := FinalMarker(t)], [n])
    ensures Replaces(t, v, f, [n], Created(t, v1, f, n))
  {
    hide Closed, IsChain, FinalMarker;
    assert (v.files - {f})[f := [n]] == v.files[f := [n]];
  }

  lemma TruncateReplaces(t: FatType, v: Volume, f: nat, n: nat)
    requires Good(t, v) && f in v.files && IsFirstFree(Deleted(t, v, f).T, n)
    ensures Replaces(t, v, f, [n], Created(t, Deleted(t, v, f), f, n))
  {
    hide Freed, Status, Zeroed;
    DeleteReplaces(t, v, f);
    NewChain(t, Deleted(t, v, f).T, n);
    ReplacesThenCreate(t, v, f, Deleted(t, v, f), n);
  }

  /** Linking a new cluster behind the last one of a chain. */
  lemma LinkedChain(t: FatType, T: seq<u16>, c: seq<nat>, n: nat)
    requires BelowMarkers(t, |T|) && Closed(t, T) && IsFirstFree(T, n) && IsChain(t, T, c)
    ensures n < 0x1_0000 && Stored(t, n) == n && n !in c
    ensures var T' := T[n := FinalMarker(t)][Last(c) := n];
            Closed(t, T') && IsChain(t, T', c + [n])
  {
    var T' := T[n := FinalMarker(t)][Last(c) := n];
    FinalMarkerIsFinal(t, |T|);
    ChainIsAllocated(t, T, c);
    var d := c + [n];
    assert n !in c;
    forall i | 0 <= i < |c| - 1
      ensures c[i] != Last(c)
    {
      ChainIsAcyclic(t, T, c, i, |c| - 1);
    }
    forall i | 0 <= i < |d| - 1
      ensures T'[d[i]] == d[i + 1]
    {
      assert i < |c| - 1 ==> T[c[i]] == c[i + 1];
    }
  }

  lemma AppendReplaces(t: FatType, v: Volume, f: nat, n: u16)
    requires Good(t, v) && f in v.files && IsFirstFree(v.T, n)
    ensures Replaces(t, v, f, v.files[f] + [n as nat], Appended(t, v, f, n))
  {
    LinkedChain(t, v.T, v.files[f], n);
    assert Last(v.files[f]) in v.files[f];
  }

  /** The new chain of the file that an operation works on. */
  lemma StepReplaces(t: FatType, v: Volume, op: Op, v': Volume) returns (c': seq<nat>)
    requires Good(t, v) && Step(t, v, op, v')
    ensures Replaces(t, v, op.f, c', v')
  {
    hide Replaces, Freed;
    match op {
      case Create(f) =>
        var n: nat :| IsFirstFree(v.T, n) && v' == Created(t, v, f, n);
        CreateReplaces(t, v, f, n);
        c' := [n];
      case Append(f) =>
        var n: u16 :| IsFirstFree(v.T, n) && v' == Appended(t, v, f, n);
        AppendReplaces(t, v, f, n);
        c' := v.files[f] + [n as nat];
      case Truncate(f) =>
        var n: nat :| IsFirstFree(Deleted(t, v, f).T, n) && v' == Created(t, Deleted(t, v, f), f, n);
        TruncateReplaces(t, v, f, n);
        c' := [n];
      case Delete(f) =>
        DeleteReplaces(t, v, f);
        c' := [];
    }
  }

  /** Every operation keeps the volume good, conserves its clusters and leaves the other files alone. */
  lemma StepKeeps(t: FatType, v: Volume, op: Op, v': Volume)
    requires Good(t, v) && Step(t, v, op, v')
    ensures Good(t, v') && Conserves(v, v')
    ensures forall g :: g in v.files && g != op.f ==> g in v'.files && v'.files[g] == v.files[g]
  {
    var c' := StepReplaces(t, v, op, v');
    ReplacesIsGood(t, v, op.f, c', v');
    ReplacesConserves(t, v, op.f, c', v');
    hide Good, Step, Conserves, Closed, IsChain;
  }

  lemma ConservesTrans(v: Volume, v1: Volume, v2: Volume)
    requires Conserves(v, v1) && Conserves(v1, v2)
    ensures Conserves(v, v2)
  {
  }

  /**
   * Over every run from a good volume: each file keeps a chain that ends in a final marker, chains stay disjoint,
   * the number of free clusters and clusters in chains together is constant, and no other entry changes.
   */
  lemma {:induction false} RunKeeps(t: FatType, vs: seq<Volume>, ops: seq<Op>, k: nat)
    requires |vs| == |ops| + 1 && k < |vs| && Good(t, vs[0])
    requires forall i :: 0 <= i < |ops| ==> Good(t, vs[i]) ==> Step(t, vs[i], ops[i], vs[i + 1])
    ensures Good(t, vs[k]) && Conserves(vs[0], vs[k])
    ensures |Free(vs[k])| + |Used(vs[k])| == |Free(vs[0])| + |Used(vs[0])|
  {
    hide Good, Step, Conserves;
    if k == 0 {
      ConservesRefl(vs[0]);
    } else {
      RunKeeps(t, vs, ops, k - 1);
      StepKeeps(t, vs[k - 1], ops[k - 1], vs[k - 1 + 1]);
      ConservesTrans(vs[0], vs[k - 1], vs[k]);
    }
    UsedIsNotFree(t, vs[0]);
    UsedIsNotFree(t, vs[k]);
    ConservesCount(vs[0], vs[k]);
  }

  lemma ConservesRefl(v: Volume)
    ensures Conserves(v, v)
  {
  }

  lemma ConservesCount(v: Volume, v': Volume)
    requires Conserves(v, v')
    ensures |Free(v') + Used(v')| == |Free(v) + Used(v)|
  {
  }
}
