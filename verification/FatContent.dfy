/** The bytes held by a chain of clusters. */
module FatContent {
  import opened Words

  /** D holds the bytes of each cluster, clusterSize for those that can be in a chain. */
  ghost predicate Sized(D: seq<seq<u8>>, clusterSize: nat) {
    clusterSize > 0 && forall c :: 2 <= c < |D| ==> |D[c]| == clusterSize
  }

  ghost predicate InData(D: seq<seq<u8>>, chain: seq<nat>) {
    forall i :: 0 <= i < |chain| ==> 2 <= chain[i] < |D|
  }

  ghost function Content(D: seq<seq<u8>>, chain: seq<nat>): seq<u8>
    requires InData(D, chain)
  {
    if |chain| == 0 then [] else D[chain[0]] + Content(D, chain[1..])
  }

  lemma {:induction false} ContentSize(D: seq<seq<u8>>, chain: seq<nat>, clusterSize: nat)
    requires InData(D, chain) && Sized(D, clusterSize)
    ensures |Content(D, chain)| == |chain| * clusterSize
  {
    if |chain| > 0 {
      ContentSize(D, chain[1..], clusterSize);
      assert |chain| * clusterSize == (|chain| - 1) * clusterSize + clusterSize;
    }
  }

  lemma {:induction false} ContentSnoc(D: seq<seq<u8>>, chain: seq<nat>, c: nat)
    requires InData(D, chain) && 2 <= c < |D|
    ensures InData(D, chain + [c]) && Content(D, chain + [c]) == Content(D, chain) + D[c]
  {
    if |chain| > 0 {
      assert (chain + [c])[1..] == chain[1..] + [c];
      ContentSnoc(D, chain[1..], c);
    } else {
      assert [c][1..] == [];
    }
  }

  /** Only the clusters of the chain matter. */
  lemma {:induction false} ContentFrame(D: seq<seq<u8>>, D': seq<seq<u8>>, chain: seq<nat>)
    requires |D'| == |D| && InData(D, chain)
    requires forall i :: 0 <= i < |chain| ==> D'[chain[i]] == D[chain[i]]
    ensures Content(D', chain) == Content(D, chain)
  {
    if |chain| > 0 {
      ContentFrame(D, D', chain[1..]);
    }
  }

  /** The position of a handle after p bytes: clusters fetched so far, and offset in the last of them. */
  function SeekPos(clusterSize: nat, p: nat): (r: (nat, nat))
    requires clusterSize > 0
    ensures r.1 < clusterSize
    decreases p
  {
    if p == 0 then (0, 0)
    else if p < clusterSize then (1, p)
    else (SeekPos(clusterSize, p - clusterSize).0 + 1, SeekPos(clusterSize, p - clusterSize).1)
  }

  lemma {:induction false} SeekPosMeaning(clusterSize: nat, p: nat)
    requires clusterSize > 0
    ensures var (k, off) := SeekPos(clusterSize, p);
            p == (if off > 0 then k - 1 else k) * clusterSize + off && (off > 0 ==> k > 0)
    decreases p
  {
    if p >= clusterSize {
      SeekPosMeaning(clusterSize, p - clusterSize);
      var (k, off) := SeekPos(clusterSize, p - clusterSize);
      assert (if off > 0 then k else k + 1) * clusterSize == (if off > 0 then k - 1 else k) * clusterSize + clusterSize;
    }
  }

  /** Reading on by w bytes that lie in one cluster. */
  lemma {:induction false} SeekPosAdvance(clusterSize: nat, p: nat, w: nat)
    requires clusterSize > 0 && 0 < w <= clusterSize - SeekPos(clusterSize, p).1
    ensures var (k, off) := SeekPos(clusterSize, p);
            SeekPos(clusterSize, p + w) ==
              (if off == 0 then k + 1 else k, if off + w == clusterSize then 0 else off + w)
    decreases p
  {
    if p >= clusterSize {
      SeekPosAdvance(clusterSize, p - clusterSize, w);
    } else if p + w == clusterSize {
      assert SeekPos(clusterSize, 0) == (0, 0);
    }
  }
}
