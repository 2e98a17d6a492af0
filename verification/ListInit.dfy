/** core_list_init: building the list inside the memory block (core_list_join.c). */
module ListInit {
  import opened Arithmetic
  import opened Words
  import opened ListCells
  import opened ListCompare
  import opened ListRuns
  import opened ListSort
  import opened ListMergesort
  import opened ListOps
  import opened ListSearch
  import opened ListVerdict
  import opened ListBench

  /** The order of the first m header slots once slot 1 holds the tail: 0, m - 1, ..., 2, 1. */
  ghost function InitOrder(heads: seq<ListHead>, m: nat): (s: seq<ListHead>)
    requires 2 <= m <= |heads|
    ensures |s| == m
  {
    [heads[0]] + seq(m - 1, k requires 0 <= k < m - 1 => heads[m - 1 - k])
  }

  lemma InitOrderGrows(heads: seq<ListHead>, m: nat)
    requires 2 <= m < |heads|
    ensures InitOrder(heads, m + 1) == [heads[0]] + [heads[m]] + InitOrder(heads, m)[1..]
  {
  }

  ghost predicate Distinct<T>(s: seq<T>) {
    forall i, j :: 0 <= i < j < |s| ==> s[i] != s[j]
  }

  lemma InitOrderDistinct(heads: seq<ListHead>, m: nat)
    requires 2 <= m <= |heads| && Distinct(heads)
    ensures Distinct(InitOrder(heads, m))
  {
  }

  lemma {:induction false} DistinctNoDup<T>(s: seq<T>)
    requires Distinct(s)
    ensures NoDup(s)
  {
    if |s| > 0 {
      DistinctNoDup(s[1..]);
      assert s == [s[0]] + s[1..];
      assert s[0] !in s[1..];
    }
  }

  const HEAD_ITEM := Item(Word16(0x80, 0x80), 0)
  const TAIL_ITEM := Item(Word16(0xff, 0xff), 0x7fff)

  /** Header and data slots in use, and the items of the head and the tail. */
  ghost predicate Filled(heads: seq<ListHead>, datas: seq<ListData>, m: nat)
    requires m <= |heads| == |datas|
    reads heads`info, datas
  {
    && (forall i :: 0 <= i < m ==> heads[i].info == datas[i])
    && (m > 0 ==> ItemOf(datas[0]) == HEAD_ITEM)
    && (m > 1 ==> ItemOf(datas[1]) == TAIL_ITEM)
  }

  /** The part of the memory block that has been turned into a list. */
  ghost predicate Built(heads: seq<ListHead>, datas: seq<ListData>, m: nat)
    reads heads, datas
  {
    && 2 <= m <= |heads| == |datas| && Distinct(heads) && Distinct(datas)
    && Terminated(InitOrder(heads, m)) && Filled(heads, datas, m)
  }

  /** `newitem->next=insert_point->next; insert_point->next=newitem;` */
  method LinkBehind(insert_point: ListHead, newitem: ListHead, ghost s: seq<ListHead>, ghost s': seq<ListHead>)
    requires |s| > 0 && Terminated(s) && insert_point == s[0]
    requires s' == [s[0]] + [newitem] + s[1..] && Distinct(s')
    modifies insert_point`next, newitem`next
    ensures Terminated(s')
  {
    assert s'[0] != s'[1] && (|s| > 1 ==> s[0].next == s[0 + 1] == s'[2]);
    newitem.next := insert_point.next;
    insert_point.next := newitem;
    forall i {:trigger s'[i]} | 0 <= i < |s'|
      ensures s'[i].next == (if i + 1 < |s'| then s'[i + 1] else null)
    {
      if i >= 2 {
        assert s'[i] == s[i - 1] && s'[0] != s'[i] && s'[1] != s'[i];
        assert i < |s| ==> s'[i + 1] == s[i] && old(s[i - 1].next) == s[i - 1 + 1];
        assert i == |s| ==> old(s[i - 1].next) == null;
      }
    }
    Relink(s');
  }

  /** core_list_insert_new behind the head; the next free slot is number m of each region. */
  method InsertNew(heads: seq<ListHead>, datas: seq<ListData>, m: nat, data16: Word16, idx: s16)
    returns (m': nat, newitem: ListHead?)
    requires Built(heads, datas, m)
    modifies heads, datas
    ensures Built(heads, datas, m')
    ensures if m + 1 < |heads| then m' == m + 1 && newitem == heads[m] else m' == m && newitem == null
    ensures forall k :: 0 <= k < m ==> datas[k].data16 == old(datas[k].data16) && datas[k].idx == old(datas[k].idx)
    ensures m' > m ==> datas[m].data16 == data16 && datas[m].idx == idx
  {
    hide Terminated, Filled;
    if m + 1 >= |heads| {
      return m, null;
    }
    newitem := heads[m];
    m' := m + 1;
    InitOrderGrows(heads, m);
    InitOrderDistinct(heads, m + 1);
    LinkBehind(heads[0], newitem, InitOrder(heads, m), InitOrder(heads, m + 1));
    FillSlot(heads, datas, m, data16, idx);
  }

  /** `newitem->info=*datablock; copy_info(newitem->info,info);` for the slots number m. */
  method FillSlot(heads: seq<ListHead>, datas: seq<ListData>, m: nat, data16: Word16, idx: s16)
    requires 2 <= m < |heads| == |datas| && Distinct(heads) && Distinct(datas) && Filled(heads, datas, m)
    modifies {heads[m]}`info, datas[m]
    ensures Filled(heads, datas, m + 1)
    ensures datas[m].data16 == data16 && datas[m].idx == idx
    ensures forall k :: 0 <= k < m ==> datas[k].data16 == old(datas[k].data16) && datas[k].idx == old(datas[k].idx)
  {
    assert forall k :: 0 <= k < m ==> heads[k] != heads[m] && datas[k] != datas[m];
    heads[m].info := datas[m];
    heads[m].info.data16, heads[m].info.idx := data16, idx;
  }

  /** The data pattern of item i: `datpat=(seed^i)&0xf; dat=(datpat<<3)|(i&0x7);` in both bytes. */
  function ItemData(seed: s16, i: nat): Word16 {
    var dat := XorBits(seed, i, 4) * 8 + i % 8;
    assert Pow2(4) == 16;
    Word16(dat, dat)
  }

  /** The index given to item i behind the first fifth of the list. */
  function MixedIdx(seed: s16, i: nat): (idx: s16)
    ensures 0 <= idx < 0x4000
  {
    OrBits((i + 1) % 8 * 0x100, XorBits(i, seed, 16), 16) % 0x4000
  }

  /** The i-th item behind the head: the first fifth in order, the others mixed. */
  function ItemIdx(seed: s16, size: u32, i: nat): (idx: s16)
    requires size / 5 <= 0x7fff
    ensures 0 <= idx < 0x7fff
  {
    if i < size / 5 then i else MixedIdx(seed, i)
  }

  lemma {:induction false} ZeroBits(n: nat)
    ensures XorBits(0, 0, n) == 0 && OrBits(0, 0, n) == 0
  {
    if n > 0 {
      ZeroBits(n - 1);
    }
  }

  lemma XorBit(x: int, y: int, n: nat)
    requires n > 0
    ensures XorBits(x, y, n) == (if x % 2 == y % 2 then 0 else 1) + 2 * XorBits(x / 2, y / 2, n - 1)
  {
  }

  lemma OrBit(x: int, y: int, n: nat)
    requires n > 0
    ensures OrBits(x, y, n) == (if x % 2 == 0 && y % 2 == 0 then 0 else 1) + 2 * OrBits(x / 2, y / 2, n - 1)
  {
  }

  lemma SevenXorTwo()
    ensures XorBits(7, 2, 16) == 5 && OrBits(0, 5, 16) == 5
  {
    hide XorBits, OrBits;
    ZeroBits(13);
    XorBit(1, 0, 14);
    XorBit(3, 1, 15);
    XorBit(7, 2, 16);
    OrBit(0, 1, 14);
    OrBit(0, 2, 15);
    OrBit(0, 5, 16);
  }

  /** The index of a mixed item can be that of another item: with seed 2 and 31 places, items 5 and 7 share index 5. */
  lemma ItemsCanShareIdx()
    ensures ItemIdx(2, 31, 5) == ItemIdx(2, 31, 7) == 5
  {
    hide XorBits, OrBits;
    SevenXorTwo();
  }

  lemma SevenXorSix()
    ensures XorBits(7, 6, 16) == 1 && OrBits(0, 1, 16) == 1
    ensures XorBits(6, 27, 4) == 13 && XorBits(6, 21, 4) == 3
  {
    hide XorBits, OrBits;
    ZeroBits(13);
    ZeroBits(15);
    XorBit(1, 1, 14);
    XorBit(3, 3, 15);
    XorBit(7, 6, 16);
    OrBit(0, 1, 16);
    FourBits(6, 27);
    FourBits(6, 21);
  }

  lemma FourBits(x: int, y: int)
    ensures XorBits(x, y, 4) == (if x % 2 == y % 2 then 0 else 1) + (if x / 2 % 2 == y / 2 % 2 then 0 else 2)
                              + (if x / 2 / 2 % 2 == y / 2 / 2 % 2 then 0 else 4)
                              + (if x / 2 / 2 / 2 % 2 == y / 2 / 2 / 2 % 2 then 0 else 8)
  {
    XorBit(x, y, 4);
    XorBit(x / 2, y / 2, 3);
    XorBit(x / 2 / 2, y / 2 / 2, 2);
    XorBit(x / 2 / 2 / 2, y / 2 / 2 / 2, 1);
    hide XorBits;
  }

  /** With seed 6 and 31 places, items 1 and 7 share index 1, and the data of item 7 are less than those of item 1. */
  lemma DecreasingItems()
    ensures ItemIdx(6, 31, 1) == ItemIdx(6, 31, 7) == 1
    ensures ItemData(6, 27) == Word16(107, 107) && ItemData(6, 21) == Word16(29, 29)
  {
    hide XorBits, OrBits;
    SevenXorSix();
  }

  /** What a cell of the finished list points to. */
  lemma BuiltLinks(heads: seq<ListHead>, datas: seq<ListData>, m: nat)
    requires Built(heads, datas, m)
    ensures heads[0].next == heads[m - 1]
    ensures forall k {:trigger heads[k]} :: 1 <= k < m ==>
              heads[k].info == datas[k] && heads[k].next == (if k > 1 then heads[k - 1] else null)
  {
    var s := InitOrder(heads, m);
    assert s[0].next == s[0 + 1];
    forall k {:trigger heads[k]} | 1 <= k < m
      ensures heads[k].next == (if k > 1 then heads[k - 1] else null)
    {
      assert s[m - k] == heads[k];
      assert k > 1 ==> s[m - k].next == s[m - k + 1];
    }
  }

  /** The items in slots k + 1 to m - 1 have their index. */
  ghost predicate Indexed(datas: seq<ListData>, seed: s16, size: u32, m: nat, k: nat)
    requires m <= |datas| && size / 5 <= 0x7fff
    reads datas`idx
  {
    forall j :: 2 <= j < m && k < j ==> datas[j].idx == ItemIdx(seed, size, m - j)
  }

  /** The body of the indexing loop, for the item in slot k. */
  method IndexOne(finder: ListHead, i: nat, size: u32, seed: s16, ghost heads: seq<ListHead>,
                  ghost datas: seq<ListData>, ghost m: nat, ghost k: nat)
    requires Built(heads, datas, m) && 2 <= k < m && finder == heads[k] && i == m - k
    requires size / 5 <= 0x7fff && Indexed(datas, seed, size, m, k)
    modifies {datas[k]}`idx
    ensures Built(heads, datas, m) && Indexed(datas, seed, size, m, k - 1)
  {
    hide MixedIdx, Terminated, Linked, InitOrder, Rebuilt;
    assert datas[0] != datas[k] && datas[1] != datas[k];
    if i < size / 5 {
      finder.info.idx := i;
    } else {
      finder.info.idx := MixedIdx(seed, i);
    }
  }

  /** "and now index the list so we know initial seed order of the list" */
  method IndexItems(heads: seq<ListHead>, datas: seq<ListData>, m: nat, size: u32, seed: s16)
    requires Built(heads, datas, m) && size / 5 <= 0x7fff
    modifies datas`idx
    ensures Built(heads, datas, m)
    ensures Indexed(datas, seed, size, m, 1)
  {
    hide Built, ItemIdx;
    BuiltLinks(heads, datas, m);
    BuiltSizes(heads, datas, m);
    var finder, i: nat := heads[0].next, 1;
    ghost var k := m - 1;
    while finder.next != null
      invariant 1 <= k < m && i == m - k && finder == heads[k] && Built(heads, datas, m)
      invariant Indexed(datas, seed, size, m, k)
      decreases k
    {
      BuiltLinks(heads, datas, m);
      IndexOne(finder, i, size, seed, heads, datas, m, k);
      i := i + 1;
      BuiltLinks(heads, datas, m);
      finder, k := finder.next, k - 1;
    }
    BuiltLinks(heads, datas, m);
  }

  lemma BuiltSizes(heads: seq<ListHead>, datas: seq<ListData>, m: nat)
    requires Built(heads, datas, m)
    ensures 2 <= m <= |heads| == |datas| && Distinct(datas)
    ensures ItemOf(datas[0]) == HEAD_ITEM && ItemOf(datas[1]) == TAIL_ITEM
  {
  }

  /** Inserting items "until the block is full"; m is the number of slots used. */
  method InsertItems(heads: seq<ListHead>, datas: seq<ListData>, size: u32, seed: s16) returns (m: nat)
    requires Built(heads, datas, 2) && |heads| == size >= 3
    modifies heads, datas
    ensures m == size - 1 && Built(heads, datas, m)
    ensures forall k :: 2 <= k < m ==> datas[k].data16 == ItemData(seed, k - 2)
  {
    hide Built, ItemData;
    BuiltSizes(heads, datas, 2);
    m := 2;
    var i: u32 := 0;
    while i < size
      invariant i <= size && Built(heads, datas, m) && m == (if i + 2 < size - 1 then i + 2 else size - 1)
      invariant forall k :: 2 <= k < m ==> datas[k].data16 == ItemData(seed, k - 2)
    {
      var data16 := ItemData(seed, i);
      var newitem;
      m, newitem := InsertNew(heads, datas, m, data16, 0x7fff);
      i := i + 1;
    }
  }

  lemma ItemDataRebuilt(seed: s16, i: nat)
    ensures Rebuilt(ItemData(seed, i))
  {
  }

  /** "create a fake items for the list head and tail" */
  method HeadAndTail(heads: seq<ListHead>, datas: seq<ListData>)
    requires |heads| == |datas| >= 3 && Distinct(heads) && Distinct(datas)
    modifies heads, datas
    ensures Built(heads, datas, 2)
  {
    var list := heads[0];
    assert datas[0] != datas[1] && heads[0] != heads[1];
    list.next := null;
    list.info := datas[0];
    list.info.idx, list.info.data16 := 0x0000, Word16(0x80, 0x80);
    // The insertion of the tail: like InsertNew, with one slot in use.
    var newitem := heads[1];
    newitem.next := list.next;
    list.next := newitem;
    newitem.info := datas[1];
    newitem.info.data16, newitem.info.idx := Word16(0xff, 0xff), 0x7fff;
    assert InitOrder(heads, 2) == [heads[0], heads[1]];
  }

  /** What core_list_init returns: the cells r of the list, in slots 0 to size - 2. */
  ghost predicate InitDone(heads: seq<ListHead>, datas: seq<ListData>, size: u32, seed: s16, list: ListHead?,
                           r: seq<ListHead>)
    requires |heads| == |datas| == size >= 3 && size / 5 <= 0x7fff
    reads heads, datas, r, set c | c in r :: c.info
  {
    // exactly the first size - 1 header slots are used, each with the data slot of the same number
    && IsList(list, r) && multiset(r) == multiset(heads[..size - 1])
    && (forall k :: 0 <= k < size - 1 ==> heads[k].info == datas[k])
    // sorted by idx, with the head slot first and the tail slot last
    && IdxSorted(r) && AllRebuilt(r)
    && |r| == size - 1 && r[0] == heads[0] && r[|r| - 1] == heads[1]
    && ItemOf(datas[0]) == HEAD_ITEM && ItemOf(datas[1]) == TAIL_ITEM
    && (forall k :: 2 <= k < size - 1 ==> datas[k].data16 == ItemData(seed, k - 2))
    && Indexed(datas, seed, size, size - 1, 1)
    // cells with the same idx stand in the order of their items
    && SortedStable(CmpIdx, InitOrder(heads, size - 1), r)
  }

  lemma {:induction false} InitOrderCells(heads: seq<ListHead>, m: nat)
    requires 2 <= m <= |heads|
    ensures multiset(InitOrder(heads, m)) == multiset(heads[..m])
    decreases m
  {
    if m == 2 {
      assert InitOrder(heads, 2) == heads[..2];
    } else {
      InitOrderGrows(heads, m - 1);
      InitOrderCells(heads, m - 1);
      var s := InitOrder(heads, m - 1);
      assert s == [heads[0]] + s[1..];
      assert heads[..m] == heads[..m - 1] + [heads[m - 1]];
    }
  }

  /** A stable sort leaves a first cell with the least idx first. */
  lemma FirstStaysFirst(s: seq<ListHead>, r: seq<ListHead>)
    requires NoDup(s) && |s| > 0 && multiset(r) == multiset(s) && SortedStable(CmpIdx, s, r)
    requires forall i :: 0 <= i < |s| ==> s[0].info.idx <= s[i].info.idx
    ensures r[0] == s[0]
  {
    SameCells(r, s);
    var j :| 0 <= j < |r| && r[j] == s[0];
    var i :| 0 <= i < |s| && s[i] == r[0];
    RankIs(s, 0);
  }

  lemma LastStaysLast(s: seq<ListHead>, r: seq<ListHead>)
    requires |s| > 0 && multiset(r) == multiset(s) && SortedStable(CmpIdx, s, r)
    requires forall i :: 0 <= i < |s| - 1 ==> s[i].info.idx < s[|s| - 1].info.idx
    ensures |r| == |s| && r[|s| - 1] == s[|s| - 1]
  {
    SameCells(r, s);
    var n := |s| - 1;
    var j :| 0 <= j < |r| && r[j] == s[n];
    var i :| 0 <= i < |s| && s[i] == r[n];
  }

  lemma SortedIsIdxSorted(s: seq<ListHead>, r: seq<ListHead>)
    requires SortedStable(CmpIdx, s, r)
    ensures IdxSorted(r)
  {
    hide Rank;
  }

  lemma SlotsOfOrder(heads: seq<ListHead>, m: nat)
    requires 2 <= m <= |heads|
    ensures forall i :: 0 <= i < m ==> InitOrder(heads, m)[i] in heads[..m]
  {
  }

  /** The list as it goes into the final sort. */
  lemma BuiltList(heads: seq<ListHead>, datas: seq<ListData>, m: nat, size: u32, seed: s16)
    requires Built(heads, datas, m) && size / 5 <= 0x7fff && Indexed(datas, seed, size, m, 1)
    ensures var s := InitOrder(heads, m);
            && IsList(heads[0], s) && |s| == m && s[0] == heads[0] && s[m - 1] == heads[1]
            && multiset(s) == multiset(heads[..m])
            && (forall i :: 0 <= i < m ==> s[0].info.idx <= s[i].info.idx)
            && (forall i :: 0 <= i < m - 1 ==> s[i].info.idx < s[m - 1].info.idx)
            && (forall d :: d in Infos(s) ==> d in datas)
            && (forall k :: 0 <= k < m ==> heads[k] in s && heads[k].info == datas[k])
            && (forall i :: 0 <= i < |s| ==> s[i] in heads)
  {
    hide MixedIdx, ItemIdx, NoDup, Terminated, Indexed;
    var s := InitOrder(heads, m);
    InitOrderDistinct(heads, m);
    DistinctNoDup(s);
    InitOrderCells(heads, m);
    InitOrderEnds(heads, datas, m, size, seed);
    forall k | 0 <= k < m
      ensures heads[k] in s
    {
      assert heads[..m][k] in multiset(s);
    }
    hide InitOrder, Distinct;
    SlotsOfOrder(heads, m);
  }

  /** The final sort by idx. */
  method SortItems(heads: seq<ListHead>, datas: seq<ListData>, m: nat, size: u32, seed: s16)
    returns (list: ListHead, ghost r: seq<ListHead>)
    requires Built(heads, datas, m) && |heads| == size >= 3 && m == size - 1 && size / 5 <= 0x7fff
    requires Indexed(datas, seed, size, m, 1)
    requires forall k :: 2 <= k < m ==> datas[k].data16 == ItemData(seed, k - 2)
    modifies heads`next, datas`data16
    ensures InitDone(heads, datas, size, seed, list, r)
  {
    hide SortedStable, NoDup, Terminated, InitOrder, MixedIdx, IsList, IdxSorted, Built, ItemData, InitDone;
    BuiltList(heads, datas, m, size, seed);
    BuiltSizes(heads, datas, m);
    ghost var s := InitOrder(heads, m);
    list, r := SortCells(heads[0], CmpIdx, null, s, s);
    // The data words have two equal bytes, so rebuilding them changes nothing.
    forall k | 0 <= k < m
      ensures heads[k].info == datas[k] && datas[k].idx == old(datas[k].idx)
      ensures datas[k].data16 == old(datas[k].data16)
    {
      ItemDataRebuilt(seed, if k >= 2 then k - 2 else 0);
      assert heads[k] in s;
    }
    SortFinished(heads, datas, m, size, seed, list, s, r);
  }

  lemma SortFinished(heads: seq<ListHead>, datas: seq<ListData>, m: nat, size: u32, seed: s16, list: ListHead?,
                     s: seq<ListHead>, r: seq<ListHead>)
    requires |heads| == |datas| == size >= 3 && m == size - 1 && size / 5 <= 0x7fff && s == InitOrder(heads, m)
    requires IsList(list, r) && multiset(r) == multiset(s) == multiset(heads[..m]) && SortedStable(CmpIdx, s, r)
    requires forall k :: 0 <= k < m ==> heads[k].info == datas[k]
    requires forall c :: c in s ==> Settled(CmpIdx, null, c.info)
    requires ItemOf(datas[0]) == HEAD_ITEM && ItemOf(datas[1]) == TAIL_ITEM && Indexed(datas, seed, size, m, 1)
    requires forall k :: 2 <= k < m ==> datas[k].data16 == ItemData(seed, k - 2)
    ensures InitDone(heads, datas, size, seed, list, r)
  {
    hide SortedStable, NoDup, Terminated, MixedIdx, ItemIdx, ItemData, Indexed, IdxSorted, InitOrder;
    InitOrderEnds(heads, datas, m, size, seed);
    assert NoDup(s) by {
      SameNoDup(r, s);
    }
    FirstStaysFirst(s, r);
    LastStaysLast(s, r);
    SortedIsIdxSorted(s, r);
    SameMembers(s, r);
  }

  /** The first cell before the final sort has the least idx, the last one the greatest. */
  lemma InitOrderEnds(heads: seq<ListHead>, datas: seq<ListData>, m: nat, size: u32, seed: s16)
    requires 2 <= m <= |heads| == |datas| && size / 5 <= 0x7fff
    requires forall k :: 0 <= k < m ==> heads[k].info == datas[k]
    requires datas[0].idx == 0 && datas[1].idx == 0x7fff && Indexed(datas, seed, size, m, 1)
    ensures var s := InitOrder(heads, m);
            && |s| == m && s[0] == heads[0] && s[m - 1] == heads[1]
            && (forall i :: 0 <= i < m ==> s[0].info.idx <= s[i].info.idx)
            && (forall i :: 0 <= i < m - 1 ==> s[i].info.idx < s[m - 1].info.idx)
  {
    hide MixedIdx, ItemIdx;
    var s := InitOrder(heads, m);
    forall i | 1 <= i < m
      ensures s[i] == heads[m - i] && s[i].info == datas[m - i]
    {
    }
  }

  lemma SameNoDup(r: seq<ListHead>, s: seq<ListHead>)
    requires NoDup(r) && multiset(r) == multiset(s)
    ensures NoDup(s)
  {
    forall c | c in s ensures multiset(s)[c] == 1 {
      assert c in multiset(r);
    }
  }

  /** The number of list items that fit into a block of blksize bytes, 16 + 4 bytes for each. */
  function ItemCount(blksize: u32): u32
    requires blksize >= 40
  {
    blksize / 20 - 2
  }

  /** The two regions end inside the block, with pointers of four bytes and with pointers of eight. */
  lemma RegionsFit(blksize: u32, pointer: nat)
    requires blksize >= 40 && pointer <= 8
    ensures ItemCount(blksize) * (2 * pointer) + ItemCount(blksize) * 4 <= blksize - 40
    ensures (ItemCount(blksize) + 3) * 20 > blksize
  {
    MulMono(2 * pointer, 16, ItemCount(blksize));
  }

  /** The items of the finished list, slot by slot: the later an item was inserted, the lower its number. */
  lemma SlotItems(heads: seq<ListHead>, datas: seq<ListData>, size: u32, seed: s16, list: ListHead?, r: seq<ListHead>)
    requires |heads| == |datas| == size >= 3 && size / 5 <= 0x7fff
    requires InitDone(heads, datas, size, seed, list, r)
    ensures datas[0].idx == 0 && datas[0].data16 == Word16(0x80, 0x80)
    ensures datas[1].idx == 0x7fff && datas[1].data16 == Word16(0xff, 0xff)
    ensures forall k :: 2 <= k < size - 1 ==>
              && datas[k].data16 == ItemData(seed, k - 2)
              && datas[k].idx == if size - 1 - k < size / 5 then size - 1 - k else MixedIdx(seed, size - 1 - k)
  {
    hide IsList, IdxSorted, AllRebuilt, SortedStable, InitOrder, ItemData, MixedIdx;
    forall k | 2 <= k < size - 1
      ensures datas[k].data16 == ItemData(seed, k - 2)
      ensures datas[k].idx == if size - 1 - k < size / 5 then size - 1 - k else MixedIdx(seed, size - 1 - k)
    {
      assert datas[k].idx == ItemIdx(seed, size, size - 1 - k);
    }
  }

  /** heads and datas are the header and data regions of the block. */
  method CoreListInit(blksize: u32, heads: seq<ListHead>, datas: seq<ListData>, seed: s16)
    returns (list: ListHead, ghost r: seq<ListHead>)
    requires blksize >= 100 && ItemCount(blksize) / 5 <= 0x7fff
    requires |heads| == |datas| == ItemCount(blksize) && Distinct(heads) && Distinct(datas)
    modifies heads, datas
    ensures InitDone(heads, datas, ItemCount(blksize), seed, list, r)
    ensures datas[0].idx == 0 && datas[0].data16 == Word16(0x80, 0x80)
    ensures datas[1].idx == 0x7fff && datas[1].data16 == Word16(0xff, 0xff)
    ensures var size := blksize / 20 - 2;
            forall k :: 2 <= k < size - 1 ==>
              && datas[k].data16 == ItemData(seed, k - 2)
              && datas[k].idx == if size - 1 - k < size / 5 then size - 1 - k else MixedIdx(seed, size - 1 - k)
  {
    hide Built, InitDone;
    var size := ItemCount(blksize);
    HeadAndTail(heads, datas);
    var m := InsertItems(heads, datas, size, seed);
    IndexItems(heads, datas, m, size, seed);
    list, r := SortItems(heads, datas, m, size, seed);
    SlotItems(heads, datas, size, seed, list, r);
  }

  /** A fresh list with enough items and different idx values is ready for the benchmark rounds (ListBench.Iterate). */
  lemma InitIsRoundReady(heads: seq<ListHead>, datas: seq<ListData>, size: u32, seed: s16, list: ListHead?,
                         r: seq<ListHead>)
    requires 4 <= |heads| == |datas| == size && size / 5 <= 0x7fff
    requires InitDone(heads, datas, size, seed, list, r)
    ensures RoundReady(list, r) <==> IdxDistinct(r)
  {
  }

  /** A cell of the finished list is a header slot in use. */
  lemma CellIsSlot(heads: seq<ListHead>, m: nat, r: seq<ListHead>, c: ListHead) returns (k: nat)
    requires m <= |heads| && multiset(r) == multiset(heads[..m]) && c in r
    ensures k < m && c == heads[k]
  {
    assert c in multiset(heads[..m]);
    k :| k < m && heads[..m][k] == c;
  }

  lemma SlotIsCell(heads: seq<ListHead>, m: nat, r: seq<ListHead>, k: nat) returns (i: nat)
    requires m <= |heads| && multiset(r) == multiset(heads[..m]) && k < m
    ensures i < |r| && r[i] == heads[k]
  {
    assert heads[..m][k] in multiset(r);
    i :| i < |r| && r[i] == heads[k];
  }

  lemma ThreeBits(x: int)
    ensures x % 8 == x % 2 + 2 * (x / 2 % 2) + 4 * (x / 2 / 2 % 2)
  {
  }

  /** A seed that is no multiple of 8 leaves no item with a zero data byte. */
  lemma NoZeroByte(seed: s16, i: nat)
    requires seed % 8 != 0
    ensures ItemData(seed, i).lo != 0
  {
    hide XorBits, Pow2;
    if i % 8 == 0 {
      ThreeBits(i);
      ThreeBits(seed);
      XorBit(seed, i, 4);
      XorBit(seed / 2, i / 2, 3);
      XorBit(seed / 2 / 2, i / 2 / 2, 2);
      assert XorBits(seed, i, 4) != 0;
    }
  }

  /** With such a seed the first search of a round by data byte, which looks for byte 0, finds nothing. */
  lemma ZeroIsMissing(heads: seq<ListHead>, datas: seq<ListData>, size: u32, seed: s16, list: ListHead?,
                      r: seq<ListHead>, idx: s16)
    requires |heads| == |datas| == size >= 3 && size / 5 <= 0x7fff && seed % 8 != 0 && idx < 0
    requires InitDone(heads, datas, size, seed, list, r)
    ensures AllFail(Nodes(r), idx, 0, 1)
  {
    hide ItemData, IsList, IdxSorted, AllRebuilt, Indexed, SortedStable, InitOrder;
    forall i | 0 <= i < |r|
      ensures r[i].info.data16.lo != 0
    {
      var k := CellIsSlot(heads, size - 1, r, r[i]);
      if k >= 2 {
        NoZeroByte(seed, k - 2);
      }
    }
    assert Missing(Nodes(r), Target(idx, 0));
    assert AllFail(Nodes(r), NextIdx(idx), 1, 1);
  }

  /** The list that core_list_init makes with seed 2 and 31 places has two cells with the same idx. */
  lemma SharedIdx(heads: seq<ListHead>, datas: seq<ListData>, list: ListHead?, r: seq<ListHead>)
    requires |heads| == |datas| == 31 && InitDone(heads, datas, 31, 2, list, r)
    ensures !IdxDistinct(r)
  {
    hide ItemData, IdxSorted, AllRebuilt, ItemIdx;
    ItemsCanShareIdx();
    var i := SlotIsCell(heads, 30, r, 25);
    var j := SlotIsCell(heads, 30, r, 23);
    SameNoDup(r, heads[..30]);
    NoDupIndices(heads[..30]);
    assert heads[..30][23] != heads[..30][25];
    assert datas[25].idx == ItemIdx(2, 31, 5) && datas[23].idx == ItemIdx(2, 31, 7);
  }

  /** The rank of a slot before the final sort. */
  lemma SlotRank(heads: seq<ListHead>, m: nat, r: seq<ListHead>, k: nat)
    requires 2 <= m <= |heads| && NoDup(r) && multiset(r) == multiset(heads[..m]) && 1 <= k < m
    ensures heads[k] in InitOrder(heads, m) && Rank(InitOrder(heads, m), heads[k]) == m - k
  {
    hide NoDup, Rank;
    InitOrderCells(heads, m);
    SameNoDup(r, InitOrder(heads, m));
    RankIs(InitOrder(heads, m), m - k);
  }

  /** Of two cells that tie in a stable sort of the slots, the one in the later slot stands first. */
  lemma LaterSlotIsFirst(heads: seq<ListHead>, m: nat, r: seq<ListHead>, a: nat, b: nat) returns (i: nat, j: nat)
    requires 2 <= m <= |heads| && NoDup(r) && multiset(r) == multiset(heads[..m])
    requires SortedStable(CmpIdx, InitOrder(heads, m), r)
    requires 1 <= b < a < m && heads[a].info.idx == heads[b].info.idx
    ensures i < j < |r| && r[i] == heads[a] && r[j] == heads[b]
  {
    i := SlotIsCell(heads, m, r, a);
    j := SlotIsCell(heads, m, r, b);
    SlotRank(heads, m, r, a);
    SlotRank(heads, m, r, b);
    hide InitOrder, NoDup, Rank;
  }

  lemma DecreasesAt(ns: seq<Node>, idx: s16, i: nat, j: nat)
    requires i < j < |ns| && ns[i].item == Item(Word16(107, 107), 1) && ns[j].item == Item(Word16(29, 29), 1) && idx > 0
    ensures Decreases(ns, idx, i, j)
  {
  }

  /** The list for seed 6 and 31 places has two cells with the same idx whose data decrease. */
  lemma DecreasingFresh(heads: seq<ListHead>, datas: seq<ListData>, list: ListHead?, r: seq<ListHead>, idx: s16)
    requires |heads| == |datas| == 31 && InitDone(heads, datas, 31, 6, list, r) && idx > 0
    ensures HasDecreasingTie(Nodes(r), idx)
  {
    hide ItemData, IdxSorted, AllRebuilt, ItemIdx, NoDup, Terminated, SortedStable, InitOrder, Decreases;
    DecreasingItems();
    assert datas[29].idx == ItemIdx(6, 31, 1) && datas[23].idx == ItemIdx(6, 31, 7);
    var i, j := LaterSlotIsFirst(heads, 30, r, 29, 23);
    assert datas[29].data16 == ItemData(6, 27) && datas[23].data16 == ItemData(6, 21);
    DecreasesAt(Nodes(r), idx, i, j);
  }

  lemma NodesAreSame(s: seq<ListHead>)
    ensures SameNodes(s, Nodes(s))
  {
  }

  /** What a round on a fresh list can rely on. */
  lemma FreshList(heads: seq<ListHead>, datas: seq<ListData>, size: u32, seed: s16, list: ListHead?, r: seq<ListHead>,
                  idx: s16)
    requires 4 <= |heads| == |datas| == size && size / 5 <= 0x7fff && InitDone(heads, datas, size, seed, list, r)
    ensures IsList(list, r) && 3 <= |r| <= 0x8000_0000 && IdxSorted(r)
    ensures idx < 0 && seed % 8 != 0 ==> AllFail(Nodes(r), idx, 0, 1)
    ensures seed == 2 && size == 31 ==> !DistinctIdx(Nodes(r))
    ensures seed == 6 && size == 31 && idx > 0 ==> HasDecreasingTie(Nodes(r), idx)
  {
    hide AllFail, Nodes, IdxDistinct, DistinctIdx, IsList, IdxSorted, Indexed, SortedStable, HasDecreasingTie, SameNodes;
    if seed == 6 && size == 31 && idx > 0 {
      DecreasingFresh(heads, datas, list, r, idx);
    }
    if idx < 0 && seed % 8 != 0 {
      ZeroIsMissing(heads, datas, size, seed, list, r, idx);
    }
    if seed == 2 && size == 31 {
      SharedIdx(heads, datas, list, r);
      NodesAreSame(r);
      SameDistinct(r, Nodes(r));
    }
  }

  /**
   * A round on a list that core_list_init has made comes back exactly under the conditions of Verdict.
   * A single search by data byte does not restore a list with a repeated idx, unless the seed is a multiple of 8; one
   * such list is that of seed 2 with 31 places. A round with a data sort does not restore the list of seed 6 with
   * 31 places, whatever it searches for.
   */
  method FreshRound(res: CoreResults, finder_idx: s16, heads: seq<ListHead>, datas: seq<ListData>, size: u32, seed: s16,
                    ghost s: seq<ListHead>)
    returns (crc: bv16, ghost list: ListHead, ghost m: Midway, ghost r: seq<ListHead>)
    requires 4 <= |heads| == |datas| == size && size / 5 <= 0x7fff
    requires InitDone(heads, datas, size, seed, res.list, s)
    modifies s, Infos(s)`data16, res`crc, res`crcstate, res`crcmatrix
    ensures IsList(list, r) && multiset(r) == multiset(s) && |s| >= 3
    ensures IsMidway(m, old(Nodes(s)), finder_idx, res.seed3)
    ensures Verdict(r == s, m, old(Nodes(s)), finder_idx, res.seed3)
    ensures finder_idx < 0 && res.seed3 == 1 && seed % 8 != 0 ==> (r == s <==> DistinctIdx(old(Nodes(s))))
    ensures finder_idx < 0 && res.seed3 == 1 && seed == 2 && size == 31 ==> r != s
    ensures finder_idx > 0 && seed == 6 && size == 31 ==> r != s
  {
    hide AllFail, Nodes, IdxDistinct, DistinctIdx, Searched, SortedStable, InitDone, IsList, IdxSorted, AllRebuilt,
      DataKeptIn, IsMidway, Verdict, Yields, HasDecreasingTie;
    FreshList(heads, datas, size, seed, res.list, s, finder_idx);
    ghost var ns := Nodes(s);
    crc, list, m, r := CoreBenchList(res, finder_idx, s);
    OneFailedSearch(r == s, m, ns, finder_idx, res.seed3);
    DoesNotReturn(r == s, m, ns, finder_idx, res.seed3);
  }

  lemma OneFailedSearch(back: bool, m: Midway, ns: seq<Node>, finder_idx: s16, find_num: s16)
    requires |ns| >= 2 && Verdict(back, m, ns, finder_idx, find_num)
    ensures finder_idx < 0 && find_num == 1 && AllFail(ns, finder_idx, 0, 1) ==> (back <==> DistinctIdx(ns))
  {
    hide AllFail, DistinctIdx, Returns, TiesKnown, TiesInOrder;
  }

  lemma DoesNotReturn(back: bool, m: Midway, ns: seq<Node>, finder_idx: s16, find_num: s16)
    requires |ns| >= 2 && Verdict(back, m, ns, finder_idx, find_num) && IsMidway(m, ns, finder_idx, find_num)
    ensures HasDecreasingTie(ns, finder_idx) ==> !back
  {
    hide AllFail, DistinctIdx, Returns, TiesKnown, TiesInOrder, Foretold, Keyed, Ordered, Searched, Ranks, LastTarget,
      HasDecreasingTie;
    if HasDecreasingTie(ns, finder_idx) {
      DecreasingTie(ns, finder_idx, m.keys, Ranks(Searched(ns, finder_idx, find_num)));
    }
  }
}
