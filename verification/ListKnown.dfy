/** The lists of the runs that core_main knows (core_main.c): their indices are distinct, so every round restores them. */
module ListKnown {
  import opened Arithmetic
  import opened Words
  import opened ListCells
  import opened ListMergesort
  import opened ListBench
  import opened ListInit

  lemma DoubleMod(b: nat, o: nat, p: nat)
    requires b < 2 && p > 0
    ensures (b + 2 * o) % (2 * p) == b + 2 * (o % p) && (b + 2 * o) / (2 * p) == o / p
  {
    var q, r := DivDef(o, p);
    Distribute(q, 2, 0, p);
    Div(q, b + 2 * r, 2 * p);
  }

  /** The low k bits of an or are the or of the low k bits. */
  lemma {:induction false} OrPrefix(x: int, y: int, n: nat, k: nat)
    requires k <= n
    ensures OrBits(x, y, n) % Pow2(k) == OrBits(x, y, k)
    decreases n
  {
    if k > 0 {
      OrPrefix(x / 2, y / 2, n - 1, k - 1);
      DoubleMod(if x % 2 == 0 && y % 2 == 0 then 0 else 1, OrBits(x / 2, y / 2, n - 1), Pow2(k - 1));
    }
  }

  /** An or is at least as much as each of its parts. */
  lemma {:induction false} OrAtLeast(x: nat, y: nat, n: nat)
    ensures OrBits(x, y, n) >= x % Pow2(n) && OrBits(x, y, n) >= y % Pow2(n)
  {
    if n > 0 {
      OrAtLeast(x / 2, y / 2, n - 1);
      DoubleMod(x % 2, x / 2, Pow2(n - 1));
      DoubleMod(y % 2, y / 2, Pow2(n - 1));
    }
  }

  /** An or with a multiple of 2^n leaves the low n bits as they are. */
  lemma {:induction false} OrLowBits(h: nat, y: nat, n: nat)
    ensures OrBits(h * Pow2(n), y, n) == y % Pow2(n)
  {
    if n > 0 {
      OrLowBits(h, y / 2, n - 1);
      var p := Pow2(n - 1);
      Distribute(h, 2, 0, p);
      assert h * Pow2(n) == (h * p) * 2;
      Div(h * p, 0, 2);
      DoubleMod(y % 2, y / 2, p);
    }
  }

  lemma {:induction false} XorPrefix(x: int, y: int, n: nat, k: nat)
    requires k <= n
    ensures XorBits(x, y, n) % Pow2(k) == XorBits(x, y, k)
    decreases n
  {
    if k > 0 {
      XorPrefix(x / 2, y / 2, n - 1, k - 1);
      DoubleMod(if x % 2 == y % 2 then 0 else 1, XorBits(x / 2, y / 2, n - 1), Pow2(k - 1));
    }
  }

  /** Different numbers stay different when they are combined with the same number. */
  lemma {:induction false} XorInjective(x: nat, y: nat, s: int, n: nat)
    requires x < Pow2(n) && y < Pow2(n) && XorBits(x, s, n) == XorBits(y, s, n)
    ensures x == y
    decreases n
  {
    if n > 0 {
      XorInjective(x / 2, y / 2, s / 2, n - 1);
    }
  }

  /** The bits above those of x come from y. */
  lemma {:induction false} XorAtLeast(x: nat, y: nat, n: nat, k: nat)
    requires k <= n && x < Pow2(k) && y < Pow2(n)
    ensures XorBits(x, y, n) >= y / Pow2(k) * Pow2(k)
  {
    if k == 0 {
      XorZero(y, n);
    } else {
      XorAtLeast(x / 2, y / 2, n - 1, k - 1);
      HalfQuotient(y, Pow2(k - 1));
    }
  }

  lemma HalfQuotient(y: nat, p: nat)
    requires p > 0
    ensures y / 2 / p == y / (2 * p) && y / (2 * p) * (2 * p) == 2 * (y / 2 / p * p)
  {
    DoubleMod(y % 2, y / 2, p);
  }

  lemma {:induction false} XorZero(y: nat, n: nat)
    requires y < Pow2(n)
    ensures XorBits(0, y, n) == y
  {
    if n > 0 {
      XorZero(y / 2, n - 1);
    }
  }

  /** Combining with zero changes nothing. */
  lemma {:induction false} ZeroXor(x: nat, n: nat)
    requires x < Pow2(n)
    ensures XorBits(x, 0, n) == x
  {
    if n > 0 {
      ZeroXor(x / 2, n - 1);
    }
  }

  lemma ModMod(x: nat)
    ensures x % 0x4000 % 0x100 == x % 0x100
  {
    var q, r := DivDef(x, 0x4000);
    var w, m := DivDef(r, 0x100);
    Div(q * 0x40 + w, m, 0x100);
  }

  lemma PowersOfMixed()
    ensures Pow2(8) == 0x100 && Pow2(14) == 0x4000 && Pow2(4) == 0x10
  {
    Powers();
    assert Pow2(14) == 4 * Pow2(12);
  }

  /** The low byte of a mixed index is that of the item number, combined with the seed. */
  lemma MixedLowByte(seed: s16, i: nat)
    ensures MixedIdx(seed, i) % 0x100 == XorBits(i, seed, 8)
  {
    hide OrBits, XorBits, Pow2;
    PowersOfMixed();
    var h, b := (i + 1) % 8, XorBits(i, seed, 16);
    ModMod(OrBits(h * 0x100, b, 16));
    OrPrefix(h * 0x100, b, 16, 8);
    OrLowBits(h, b, 8);
    XorPrefix(i, seed, 16, 8);
  }

  /** It is at least the three bits in front of the low byte, and at least what the seed leaves of 14 bits. */
  lemma MixedAtLeast(seed: s16, i: nat)
    ensures MixedIdx(seed, i) >= (i + 1) % 8 * 0x100 && MixedIdx(seed, i) >= XorBits(i, seed, 14)
  {
    hide OrBits, XorBits, Pow2;
    PowersOfMixed();
    var a, b := (i + 1) % 8 * 0x100, XorBits(i, seed, 16);
    OrPrefix(a, b, 16, 14);
    OrAtLeast(a, b, 14);
    XorPrefix(i, seed, 16, 14);
  }

  /** Mixed items have different indices, as long as their numbers fit into a byte. */
  lemma MixedDiffer(seed: s16, i: nat, j: nat)
    requires i < 0x100 && j < 0x100 && MixedIdx(seed, i) == MixedIdx(seed, j)
    ensures i == j
  {
    hide MixedIdx, XorBits, Pow2;
    PowersOfMixed();
    MixedLowByte(seed, i);
    MixedLowByte(seed, j);
    XorInjective(i, j, seed, 8);
  }

  /** No mixed item of a list has the index of the head or of an item in order. */
  predicate MixedApart(seed: s16, size: nat) {
    forall i :: size / 5 <= i < size - 2 ==> MixedIdx(seed, i) > 0 && MixedIdx(seed, i) >= size / 5
  }

  /** Slot k of a list that core_list_init has made has this idx. */
  function SlotIdx(seed: s16, size: u32, k: nat): s16
    requires size / 5 <= 0x7fff && k < size - 1
  {
    if k == 0 then 0 else if k == 1 then 0x7fff else ItemIdx(seed, size, size - 1 - k)
  }

  lemma SlotsDiffer(seed: s16, size: u32, k: nat, l: nat)
    requires 3 <= size <= 0x102 && MixedApart(seed, size) && k < l < size - 1
    ensures SlotIdx(seed, size, k) != SlotIdx(seed, size, l)
  {
    hide MixedIdx;
    if k >= 2 && ItemIdx(seed, size, size - 1 - k) == ItemIdx(seed, size, size - 1 - l) {
      if size - 1 - l >= size / 5 {
        MixedDiffer(seed, size - 1 - k, size - 1 - l);
      }
    }
  }

  /** If a mixed item is not apart, it shares its index with the head or with an item in order. */
  lemma SlotsAgree(seed: s16, size: u32) returns (k: nat, l: nat)
    requires 5 <= size && size / 5 <= 0x7fff && !MixedApart(seed, size)
    ensures k < size - 1 && l < size - 1 && k != l && SlotIdx(seed, size, k) == SlotIdx(seed, size, l)
  {
    hide MixedIdx;
    var i :| size / 5 <= i < size - 2 && !(MixedIdx(seed, i) > 0 && MixedIdx(seed, i) >= size / 5);
    k := size - 1 - i;
    l := if MixedIdx(seed, i) == 0 then 0 else size - 1 - MixedIdx(seed, i) as int;
  }

  lemma SlotHasIdx(heads: seq<ListHead>, datas: seq<ListData>, size: u32, seed: s16, list: ListHead?,
                   r: seq<ListHead>, k: nat)
    requires |heads| == |datas| == size >= 3 && size / 5 <= 0x7fff && InitDone(heads, datas, size, seed, list, r)
    requires k < size - 1
    ensures heads[k].info.idx == SlotIdx(seed, size, k)
  {
    hide ItemIdx, ItemData, IsList, IdxSorted, AllRebuilt, SortedStable, InitOrder;
  }

  /**
   * Exactly when the list that core_list_init makes has distinct indices, for up to 258 places: when no mixed item
   * gets an index below the first fifth.
   */
  lemma DistinctIffApart(heads: seq<ListHead>, datas: seq<ListData>, size: u32, seed: s16, list: ListHead?,
                         r: seq<ListHead>)
    requires |heads| == |datas| == size && 5 <= size <= 0x102 && InitDone(heads, datas, size, seed, list, r)
    ensures IdxDistinct(r) <==> MixedApart(seed, size)
  {
    hide ItemIdx, ItemData, IdxSorted, AllRebuilt, SortedStable, InitOrder, MixedApart, SlotIdx, Indexed, Terminated;
    var m := size - 1;
    if MixedApart(seed, size) {
      forall i, j | 0 <= i < j < |r|
        ensures r[i].info.idx != r[j].info.idx
      {
        NoDupIndices(r);
        var k := CellIsSlot(heads, m, r, r[i]);
        var l := CellIsSlot(heads, m, r, r[j]);
        SlotHasIdx(heads, datas, size, seed, list, r, k);
        SlotHasIdx(heads, datas, size, seed, list, r, l);
        if k < l {
          SlotsDiffer(seed, size, k, l);
        } else {
          SlotsDiffer(seed, size, l, k);
        }
      }
    } else {
      var k, l := SlotsAgree(seed, size);
      SlotHasIdx(heads, datas, size, seed, list, r, k);
      SlotHasIdx(heads, datas, size, seed, list, r, l);
      SlotsShare(heads, m, r, k, l);
    }
  }

  lemma SlotsShare(heads: seq<ListHead>, m: nat, r: seq<ListHead>, k: nat, l: nat)
    requires m <= |heads| && NoDup(r) && multiset(r) == multiset(heads[..m]) && k < m && l < m && k != l
    requires heads[k].info.idx == heads[l].info.idx
    ensures !IdxDistinct(r)
  {
    hide NoDup;
    var i := SlotIsCell(heads, m, r, k);
    var j := SlotIsCell(heads, m, r, l);
    SameNoDup(r, heads[..m]);
    NoDupIndices(heads[..m]);
    assert heads[..m][k] != heads[..m][l];
    assert i != j;
  }

  /** With seed 0 a mixed item has its number in the low byte. */
  lemma SeedZeroApart(size: nat)
    requires 5 <= size <= 0x102
    ensures MixedApart(0, size)
  {
    hide MixedIdx, XorBits, Pow2;
    PowersOfMixed();
    forall i | size / 5 <= i < size - 2
      ensures MixedIdx(0, i) > 0 && MixedIdx(0, i) >= size / 5
    {
      MixedLowByte(0, i);
      ZeroXor(i, 8);
    }
  }

  /** With seed 0x3415 every mixed item has an index of at least 0x3400. */
  lemma Seed3415Apart(size: nat)
    requires 5 <= size <= 0x102
    ensures MixedApart(0x3415, size)
  {
    hide MixedIdx, XorBits, Pow2;
    PowersOfMixed();
    forall i | size / 5 <= i < size - 2
      ensures MixedIdx(0x3415, i) > 0 && MixedIdx(0x3415, i) >= size / 5
    {
      MixedAtLeast(0x3415, i);
      XorAtLeast(i, 0x3415, 14, 8);
    }
  }

  lemma Seed8Apart()
    ensures MixedApart(8, 18)
  {
    hide MixedIdx, XorBits, Pow2;
    PowersOfMixed();
    forall i | 3 <= i < 16
      ensures MixedIdx(8, i) >= 3
    {
      MixedAtLeast(8, i);
      if i == 7 || i == 15 {
        MixedLowByte(8, i);
        XorPrefix(i, 8, 8, 4);
        FourBits(i, 8);
      }
    }
  }

  /** The five pairs of seed1 and block size for which core_main knows the CRCs. */
  predicate KnownRun(seed: s16, blksize: u32) {
    (seed, blksize) in {(0, 2000), (0x3415, 2000), (8, 400), (0, 666), (0x3415, 666)}
  }

  /** The list of a known run is restored by every round (ListBench.Iterate). */
  lemma KnownRunIsReady(heads: seq<ListHead>, datas: seq<ListData>, blksize: u32, seed: s16, list: ListHead?,
                        r: seq<ListHead>)
    requires KnownRun(seed, blksize) && |heads| == |datas| == ItemCount(blksize)
    requires InitDone(heads, datas, ItemCount(blksize), seed, list, r)
    ensures RoundReady(list, r)
  {
    hide InitDone, RoundReady, MixedApart;
    var size := ItemCount(blksize);
    SeedZeroApart(size);
    Seed3415Apart(size);
    Seed8Apart();
    DistinctIffApart(heads, datas, size, seed, list, r);
    InitIsRoundReady(heads, datas, size, seed, list, r);
  }
}
