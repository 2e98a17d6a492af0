/** core_bench_list: one round of the list benchmark (core_list_join.c). */
module ListBench {
  import opened Words
  import opened ListCells
  import opened ListCompare
  import opened ListRuns
  import opened ListSort
  import opened ListMergesort
  import opened ListOps
  import opened ListSearch
  import opened ListVerdict
  import Crc

  /** The cells stand in ascending order of idx. */
  ghost predicate IdxSorted(s: seq<ListHead>)
    reads s`info, set c | c in s :: c.info
  {
    forall i, j :: 0 <= i < j < |s| ==> s[i].info.idx <= s[j].info.idx
  }

  ghost predicate IdxDistinct(s: seq<ListHead>)
    reads s`info, set c | c in s :: c.info
  {
    forall i, j :: 0 <= i < j < |s| ==> s[i].info.idx != s[j].info.idx
  }

  /** "CRC data content of list": one step for every cell from finder on, but always with the data of the head. */
  method CrcCells(list: ListHead, finder: ListHead?, retval: bv16, ghost rest: seq<ListHead>) returns (crc: bv16)
    requires finder == Head(rest, null) && Terminated(rest)
    ensures crc == CrcTimes(list.info.data16, |rest|, retval)
  {
    hide Crc.CrcWord;
    crc := retval;
    var cell := finder;
    ghost var todo := rest;
    while cell != null
      invariant cell == Head(todo, null) && Terminated(todo)
      invariant CrcTimes(list.info.data16, |todo|, crc) == CrcTimes(list.info.data16, |rest|, retval)
      decreases |todo|
    {
      crc := Crc.CrcWord(list.info.data16, crc);
      assert |todo| > 1 ==> todo[0].next == todo[1];
      cell, todo := cell.next, todo[1..];
    }
  }

  lemma RestIsTerminated(s: seq<ListHead>, k: nat)
    requires Terminated(s) && k <= |s|
    ensures Terminated(s[k..])
  {
  }

  /** The number of cells behind the first match in a list, or behind its head if nothing matches. */
  ghost function CellsFrom(ds: seq<ListData>, info: Target): nat
    requires |ds| > 0
    reads ds
  {
    var k := FirstMatch(ds, info);
    if k == |ds| then |ds| - 1 else |ds| - k
  }

  /** "CRC data content of list from location of index N forward" */
  method CrcFromMatch(list: ListHead, info: Target, retval: bv16, ghost s: seq<ListHead>) returns (crc: bv16)
    requires |s| >= 2 && list == s[0] && Terminated(s)
    ensures crc == CrcTimes(list.info.data16, CellsFrom(Items(s), info), retval)
  {
    hide Matches, FirstMatch, CrcTimes, Items;
    var finder, k := Find(list, info, s);
    assert s[0].next == s[0 + 1];
    if finder == null {
      finder, k := list.next, 1;
    }
    RestIsTerminated(s, k);
    crc := CrcCells(list, finder, retval, s[k..]);
  }

  lemma SameItems(s: seq<ListHead>, ds: seq<ListData>)
    requires |ds| == |s| && forall i :: 0 <= i < |s| ==> ds[i] == s[i].info
    ensures Items(s) == ds
  {
  }

  /** "remove one item", CRC the list without it, "and then undo remove"; the item removed is the second. */
  method RemoveAndUndo(list: ListHead, info: Target, retval: bv16, ghost cur: seq<ListHead>) returns (crc: bv16)
    requires IsList(list, cur) && |cur| >= 3
    modifies cur[1], cur[2]
    ensures IsList(list, cur)
    ensures forall c :: c in cur ==> c.info == old(c.info)
    ensures crc == CrcTimes(list.info.data16, CellsFrom(old(Items(Without(cur, 0))), info), retval)
  {
    hide CrcTimes, Items, CellsFrom;
    FirstTwo(list, cur);
    ghost var shorter, items := Without(cur, 1), Items(Without(cur, 0));
    NoDupIndices(cur);
    var remover := Remove(list.next, cur, 1);
    assert shorter[0] == list && shorter[1] == cur[1];
    SameItems(shorter, items);
    crc := CrcFromMatch(list, info, retval, shorter);
    var item := UndoRemove(remover, list.next, cur, 1);
  }

  /** Every cell still has its data item, with the index and backup byte it had. */
  twostate predicate DataKeptIn(s: seq<ListHead>)
    reads s`info, set c | c in s :: c.info
  {
    forall c :: c in s ==> c.info == old(c.info) && BackupKept(c.info)
  }

  /** If two permutations agree on the first k cells, the next cell of one is among the remaining cells of the other. */
  lemma NextIsBehind(s: seq<ListHead>, r: seq<ListHead>, k: nat) returns (i: nat)
    requires multiset(r) == multiset(s) && |r| == |s| && k < |s| && r[..k] == s[..k]
    ensures k <= i < |s| && s[i] == r[k]
  {
    var a, b, c := r[..k], r[k..], s[k..];
    assert r == a + b && s == a + c;
    assert multiset(a + b)[r[k]] == multiset(a)[r[k]] + multiset(b)[r[k]];
    assert multiset(a + c)[r[k]] == multiset(a)[r[k]] + multiset(c)[r[k]];
    assert b[0] == r[k] && r[k] in multiset(b) && r[k] in multiset(c);
    assert r[k] in s[k..];
    i :| k <= i < |s| && s[i] == r[k];
  }

  /** A stable sort of pre has only one result. */
  lemma {:induction false} StablePrefix(cmp: Comparator, pre: seq<ListHead>, s: seq<ListHead>, r: seq<ListHead>, n: nat)
    requires multiset(r) == multiset(s) && |r| == |s| && n <= |s|
    requires SortedStable(cmp, pre, s) && SortedStable(cmp, pre, r)
    ensures r[..n] == s[..n]
  {
    hide Key, Rank;
    if n > 0 {
      StablePrefix(cmp, pre, s, r, n - 1);
      var i := NextIsBehind(s, r, n - 1);
      var j := NextIsBehind(r, s, n - 1);
      assert i == n - 1 || j == n - 1;
    }
  }

  lemma StableIsUnique(cmp: Comparator, pre: seq<ListHead>, s: seq<ListHead>, r: seq<ListHead>)
    requires multiset(r) == multiset(s) && SortedStable(cmp, pre, s) && SortedStable(cmp, pre, r)
    ensures r == s
  {
    hide SortedStable;
    SameCells(r, s);
    StablePrefix(cmp, pre, s, r, |s|);
    assert r[..|s|] == r && s[..|s|] == s;
  }

  /** Cells of s with the same idx stand in pre in the order they have in s. */
  ghost predicate KeepsTies(s: seq<ListHead>, pre: seq<ListHead>)
    reads s`info, set c | c in s :: c.info
  {
    forall i, j :: 0 <= i < j < |s| && s[i].info.idx == s[j].info.idx ==>
      s[i] in pre && s[j] in pre && Rank(pre, s[i]) < Rank(pre, s[j])
  }

  /** An idx-sorted list is the stable sort of those permutations of it that keep the order of equal cells. */
  lemma SortedKeepsTies(s: seq<ListHead>, pre: seq<ListHead>)
    requires IdxSorted(s) && forall i :: 0 <= i < |s| ==> s[i] in pre
    ensures SortedStable(CmpIdx, pre, s) <==> KeepsTies(s, pre)
  {
    hide Rank;
  }

  /** The identity keeps every tie, a reversal none. */
  lemma TiesOfReversed(s: seq<ListHead>)
    requires NoDup(s)
    ensures KeepsTies(s, s)
    ensures KeepsTies(s, Reversed(s)) <==> IdxDistinct(s)
  {
    hide Reversed, Rank, NoDup;
    forall i | 0 <= i < |s|
      ensures s[i] in s && Rank(s, s[i]) == i
      ensures s[i] in Reversed(s) && Rank(Reversed(s), s[i]) == |s| - 1 - i
    {
      RankIs(s, i);
      ReversedRank(s, i);
    }
  }

  lemma ReversedRank(s: seq<ListHead>, i: nat)
    requires NoDup(s) && i < |s|
    ensures s[i] in Reversed(s) && Rank(Reversed(s), s[i]) == |s| - 1 - i
  {
    hide Reversed, Rank;
    ReversedAt(s, |s| - 1 - i);
    assert NoDup(Reversed(s)) by {
      forall c | c in Reversed(s) ensures multiset(Reversed(s))[c] == 1 {
        assert c in multiset(s);
      }
    }
    RankIs(Reversed(s), |s| - 1 - i);
  }

  ghost predicate AllRebuilt(s: seq<ListHead>)
    reads s`info, set c | c in s :: c.info
  {
    forall c :: c in s ==> Rebuilt(c.info.data16)
  }

  lemma SameInfos(cur: seq<ListHead>, s: seq<ListHead>)
    requires multiset(cur) == multiset(s)
    ensures Infos(cur) == Infos(s)
  {
    forall c ensures c in cur <==> c in s {
      assert c in multiset(cur) <==> c in multiset(s);
    }
  }

  /** core_list_mergesort on a permutation cur of the cells s. */
  method SortCells(list: ListHead, cmp: Comparator, res: CoreResults?, ghost s: seq<ListHead>, ghost cur: seq<ListHead>)
    returns (list': ListHead, ghost r: seq<ListHead>)
    requires (cmp.CmpComplex? ==> res != null) && IsList(list, cur) && multiset(cur) == multiset(s)
    requires 2 <= |s| <= 0x8000_0000
    modifies s`next, Infos(s)`data16, ResultsOf(res)`crc, ResultsOf(res)`crcstate, ResultsOf(res)`crcmatrix
    ensures IsList(list', r) && multiset(r) == multiset(s) && SortedStable(cmp, cur, r)
    ensures DataKeptIn(s)
    ensures forall c :: c in s ==> KeyForeseen(cmp, c.info) && Settled(cmp, res, c.info)
  {
    hide IsList, SortedStable;
    SameCells(cur, s);
    SameInfos(cur, s);
    list', r := Mergesort(list, cmp, res, cur);
    SameMembers(cur, s);
    forall c | c in s
      ensures DataKept(cmp, res, c.info)
    {
      assert c.info in Infos(s);
    }
  }

  lemma SameMembers(cur: seq<ListHead>, s: seq<ListHead>)
    requires multiset(cur) == multiset(s)
    ensures forall c :: c in s ==> c in cur
  {
    forall c | c in s ensures c in cur {
      assert c in multiset(cur);
    }
  }

  /** ns are the nodes of s before the round; the indices have not changed since. */
  ghost predicate SameNodes(s: seq<ListHead>, ns: seq<Node>)
    reads s`info, set c | c in s :: c.info
  {
    |ns| == |s| && forall i :: 0 <= i < |s| ==> ns[i].cell == s[i] && ns[i].item.idx == s[i].info.idx
  }

  /** The data items of s after the data sort, compared with the nodes ns of s before it. */
  ghost predicate DataSorted(s: seq<ListHead>, ns: seq<Node>)
    reads s`info, set c | c in s :: c.info
  {
    SameNodes(s, ns) && forall i :: 0 <= i < |s| ==>
      && s[i].info.data16.hi == ns[i].item.data16.hi && Cached(s[i].info.data16)
      && (Foreseen(ns[i].item.data16) ==> Low7(s[i].info.data16) == Low7(ns[i].item.data16))
  }

  ghost function SortKeys(s: seq<ListHead>): Keys
    reads s`info, set c | c in s :: c.info
  {
    map c | c in s :: Low7(c.info.data16) as int
  }

  lemma KeysAreForetold(s: seq<ListHead>, ns: seq<Node>, finder_idx: s16, pre: seq<ListHead>)
    requires finder_idx > 0 && multiset(pre) == multiset(s) && DataSorted(s, ns)
    ensures Foretold(ns, finder_idx, SortKeys(pre))
  {
    SameMembers(pre, s);
  }

  lemma NodesAreKeyed(s: seq<ListHead>, ns: seq<Node>, pre: seq<ListHead>)
    requires multiset(pre) == multiset(s) && DataSorted(s, ns)
    ensures Keyed(ns, SortKeys(pre), Nodes(pre))
  {
    SameMembers(pre, s);
  }

  /** What the data sort has left of the nodes ns of s. */
  lemma SortIsRecorded(s: seq<ListHead>, ns: seq<Node>, finder_idx: s16, cur: seq<ListHead>, pre: seq<ListHead>)
    requires finder_idx > 0 && multiset(pre) == multiset(s) && SortedStable(CmpComplex, cur, pre) && DataSorted(s, ns)
    ensures Foretold(ns, finder_idx, SortKeys(pre)) && Ordered(SortKeys(pre), Ranks(cur), pre)
    ensures Keyed(ns, SortKeys(pre), Nodes(pre))
  {
    KeysAreForetold(s, ns, finder_idx, pre);
    NodesAreKeyed(s, ns, pre);
    hide Foretold, Keyed, DataSorted, SortedStable, Ordered, Ranks, Nodes;
    SortedIsOrdered(CmpComplex, cur, pre, SortKeys(pre));
  }

  /** Without a data sort the searches have left everything as it is. */
  lemma NothingIsRecorded(s: seq<ListHead>, ns: seq<Node>, finder_idx: s16, cur: seq<ListHead>, keys: Keys)
    requires finder_idx <= 0 && multiset(cur) == multiset(s) && NoDup(cur) && |ns| == |s|
    requires forall i :: 0 <= i < |s| ==> ns[i].cell == s[i]
    requires keys == map c | c in cur :: 0
    ensures Foretold(ns, finder_idx, keys) && Ordered(keys, Ranks(cur), cur)
  {
    SameCells(cur, s);
    UnsortedIsOrdered(cur, keys);
  }

  /** No benchmark result has entered the crc fields. */
  twostate predicate ResultsKept(res: CoreResults)
    reads res
  {
    res.crc == old(res.crc) && res.crcstate == old(res.crcstate) && res.crcmatrix == old(res.crcmatrix)
  }

  /** "sort the list by data content" */
  method SortByData(res: CoreResults, finder_idx: s16, list: ListHead, ghost s: seq<ListHead>, ghost cur: seq<ListHead>,
                    ghost ns: seq<Node>)
    returns (list': ListHead, ghost pre: seq<ListHead>)
    requires IsList(list, cur) && multiset(cur) == multiset(s) && 3 <= |s| <= 0x8000_0000 && ns == Nodes(s)
    requires finder_idx > 0
    modifies s`next, Infos(s)`data16, res`crc, res`crcstate, res`crcmatrix
    ensures IsList(list', pre) && multiset(pre) == multiset(s)
    ensures DataKeptIn(s) && res.list == old(res.list)
    ensures Foretold(ns, finder_idx, SortKeys(pre)) && Ordered(SortKeys(pre), Ranks(cur), pre)
    ensures Keyed(ns, SortKeys(pre), Nodes(pre))
  {
    hide IsList, SortedStable, Foretold, Ordered, Keyed, Ranks, SortKeys;
    list', pre := SortCells(list, CmpComplex, res, s, cur);
    assert forall i :: 0 <= i < |s| ==> s[i] in s;
    SortIsRecorded(s, ns, finder_idx, cur, pre);
  }

  /** "sort the list by data content", if finder_idx is positive. */
  method DataSort(res: CoreResults, finder_idx: s16, list: ListHead, ghost s: seq<ListHead>, ghost cur: seq<ListHead>,
                  ghost ns: seq<Node>)
    returns (list': ListHead, ghost pre: seq<ListHead>, ghost keys: Keys)
    requires IsList(list, cur) && multiset(cur) == multiset(s) && 3 <= |s| <= 0x8000_0000 && ns == Nodes(s)
    modifies s`next, Infos(s)`data16, res`crc, res`crcstate, res`crcmatrix
    ensures IsList(list', pre) && multiset(pre) == multiset(s)
    ensures DataKeptIn(s) && res.list == old(res.list)
    ensures Foretold(ns, finder_idx, keys) && Ordered(keys, Ranks(cur), pre)
    ensures if finder_idx > 0 then Keyed(ns, keys, Nodes(pre)) else Nodes(pre) == old(Nodes(cur))
    ensures finder_idx <= 0 ==> ResultsKept(res)
  {
    hide IsList, SortedStable, Foretold, Ordered, Keyed, Ranks, SortKeys, Nodes;
    if finder_idx > 0 {
      list', pre := SortByData(res, finder_idx, list, s, cur, ns);
      keys := SortKeys(pre);
    } else {
      list', pre, keys := list, cur, map c | c in cur :: 0;
      ListNoDup(list, cur);
      NodesAreCells(s);
      NothingIsRecorded(s, ns, finder_idx, cur, keys);
    }
  }

  lemma NodesAreCells(s: seq<ListHead>)
    ensures |Nodes(s)| == |s| && forall i :: 0 <= i < |s| ==> Nodes(s)[i].cell == s[i]
  {
  }

  /** The search loop, and the value it adds up to. */
  method Search(res: CoreResults, finder_idx: s16, ghost s: seq<ListHead>, ghost ns: seq<Node>)
    returns (list: ListHead, info: Target, retval: bv16, ghost cur: seq<ListHead>)
    requires IsList(res.list, s) && |s| >= 2 && ns == Nodes(s)
    modifies s`next
    ensures IsList(list, cur) && multiset(cur) == multiset(s) && Nodes(s) == ns
    ensures cur == Searched(ns, finder_idx, res.seed3) && Nodes(cur) == Searches(ns, finder_idx, 0, Turns(res.seed3)).0
    ensures retval == SearchValue(ns, finder_idx, res.seed3) && LastTarget(info, finder_idx, Turns(res.seed3))
  {
    hide IsList, Nodes, Searches, Bits16;
    var count;
    list, info, count, cur := SearchLoop(res.list, res.seed3, finder_idx, s);
    NodesKept(s);
    retval := Bits16(count);
  }

  lemma MakesMidway(m: Midway, s: seq<ListHead>, ns: seq<Node>, finder_idx: s16, find_num: s16)
    requires |ns| >= 2 && Cells(ns) == s && multiset(m.pre) == multiset(s) && m.pre == Cells(m.ns)
    requires Foretold(ns, finder_idx, m.keys) && Ordered(m.keys, Ranks(Searched(ns, finder_idx, find_num)), m.pre)
    requires if finder_idx > 0 then Keyed(ns, m.keys, m.ns) else m.ns == Searches(ns, finder_idx, 0, Turns(find_num)).0
    requires LastTarget(m.info, finder_idx, Turns(find_num))
    ensures IsMidway(m, ns, finder_idx, find_num)
  {
    hide Searches, Foretold, Ordered, Keyed, Ranks, Cells, Searched, LastTarget;
  }

  /** The search loop, and "sort the list by data content". */
  method SearchAndSort(res: CoreResults, finder_idx: s16, ghost s: seq<ListHead>)
    returns (list: ListHead, info: Target, retval: bv16, ghost m: Midway)
    requires IsList(res.list, s) && 3 <= |s| <= 0x8000_0000
    modifies s`next, Infos(s)`data16, res`crc, res`crcstate, res`crcmatrix
    ensures IsList(list, m.pre) && multiset(m.pre) == multiset(s)
    ensures DataKeptIn(s) && res.list == old(res.list)
    ensures IsMidway(m, old(Nodes(s)), finder_idx, res.seed3) && m.ns == Nodes(m.pre) && m.info == info
    ensures retval == SearchValue(old(Nodes(s)), finder_idx, res.seed3)
    ensures finder_idx <= 0 ==> ResultsKept(res)
  {
    hide IsList, NoDup, SearchValue, Nodes, Searches, Searched, Foretold, Ordered, Keyed, Ranks, IsMidway, Cells, LastTarget;
    ghost var cur, pre, keys;
    ghost var ns := Nodes(s);
    list, info, retval, cur := Search(res, finder_idx, s, ns);
    list, pre, keys := DataSort(res, finder_idx, list, s, cur, ns);
    m := Midway(pre, keys, Nodes(pre), info);
    CellsOfNodes(pre);
    MakesMidway(m, s, ns, finder_idx, res.seed3);
  }

  /** From the search loop to the undone removal: everything except the links and the data words is as before. */
  method BeforeFinalSort(res: CoreResults, finder_idx: s16, ghost s: seq<ListHead>)
    returns (list: ListHead, retval: bv16, ghost m: Midway)
    requires IsList(res.list, s) && 3 <= |s| <= 0x8000_0000
    modifies s, Infos(s)`data16, res`crc, res`crcstate, res`crcmatrix
    ensures IsList(list, m.pre) && multiset(m.pre) == multiset(s)
    ensures DataKeptIn(s) && res.list == old(res.list)
    ensures IsMidway(m, old(Nodes(s)), finder_idx, res.seed3)
    ensures YieldsMidway(retval, m, old(Nodes(s)), finder_idx, res.seed3)
    ensures finder_idx <= 0 ==> ResultsKept(res)
  {
    hide IsList, NoDup, Nodes, IsMidway, MiddleCrc, CrcTimes, NodesFrom, SearchValue, CellsFrom, Items, BackupKept;
    var info;
    list, info, retval, m := SearchAndSort(res, finder_idx, s);
    SameCells(m.pre, s);
    SameMembers(m.pre, s);
    MiddleOf(list, m.pre, info, retval);
    retval := RemoveAndUndo(list, info, retval, m.pre);
  }

  lemma {:induction false} FirstMatchIsFirstHit(ds: seq<ListData>, ns: seq<Node>, info: Target)
    requires |ds| == |ns| && forall i :: 0 <= i < |ds| ==> ns[i].item == ItemOf(ds[i])
    ensures FirstMatch(ds, info) == FirstHit(ns, info)
  {
    hide Hits;
    if |ds| > 0 {
      FirstMatchIsFirstHit(ds[1..], ns[1..], info);
    }
  }

  lemma ItemsOfShorter(s: seq<ListHead>)
    requires |s| >= 2
    ensures |Without(s, 0)| == |Without(Nodes(s), 0)| == |s| - 1
    ensures forall i :: 0 <= i < |s| - 1 ==> Without(Nodes(s), 0)[i].item == ItemOf(Without(s, 0)[i].info)
  {
    hide Nodes;
    forall i | 0 <= i < |s| - 1
      ensures Without(Nodes(s), 0)[i].item == ItemOf(Without(s, 0)[i].info)
    {
      var j := if i == 0 then 0 else i + 1;
      assert Without(s, 0)[i] == s[j] && Without(Nodes(s), 0)[i] == Nodes(s)[j];
    }
  }

  lemma SameFrom(s: seq<ListHead>, info: Target)
    requires |s| >= 2
    ensures CellsFrom(Items(Without(s, 0)), info) == NodesFrom(Without(Nodes(s), 0), info)
  {
    hide FirstMatch, FirstHit, Items, Nodes, Without;
    ItemsOfShorter(s);
    FirstMatchIsFirstHit(Items(Without(s, 0)), Without(Nodes(s), 0), info);
  }

  /** The CRC with the second item out, in terms of the cells. */
  lemma MiddleOf(list: ListHead, s: seq<ListHead>, info: Target, crc: bv16)
    requires IsList(list, s) && |s| >= 3
    ensures MiddleCrc(Nodes(s), info, crc) == CrcTimes(list.info.data16, CellsFrom(Items(Without(s, 0)), info), crc)
  {
    hide IsList, NoDup, Nodes, NodesFrom, CellsFrom, Items, CrcTimes, Without;
    ListNoDup(list, s);
    SameFrom(s, info);
  }

  lemma ListNoDup(list: ListHead?, s: seq<ListHead>)
    requires IsList(list, s) && |s| > 0
    ensures NoDup(s) && list == s[0]
  {
  }

  lemma ListTail(list: ListHead, s: seq<ListHead>)
    requires IsList(list, s) && |s| > 0
    ensures list == s[0] && list.next == Head(s[1..], null) && Terminated(s[1..])
  {
  }

  twostate lemma SameIdx(s: seq<ListHead>)
    requires DataKeptIn(s)
    ensures IdxSorted(s) == old(IdxSorted(s)) && IdxDistinct(s) == old(IdxDistinct(s))
  {
    assert forall i :: 0 <= i < |s| ==> s[i].info.idx == old(s[i].info.idx);
  }

  /** An idx-sorted list comes back from the final sort exactly if its ties have been kept. */
  lemma RoundEnds(s: seq<ListHead>, pre: seq<ListHead>, r: seq<ListHead>)
    requires multiset(r) == multiset(s) == multiset(pre) && SortedStable(CmpIdx, pre, r) && IdxSorted(s)
    ensures r == s <==> KeepsTies(s, pre)
  {
    hide SortedStable, IdxSorted, KeepsTies;
    SameCells(pre, s);
    SortedKeepsTies(s, pre);
    if KeepsTies(s, pre) {
      StableIsUnique(CmpIdx, pre, s, r);
    }
  }

  /** "sort the list by index, in effect returning the list to original state", and the CRC over it. */
  method FinalSort(list: ListHead, crc: bv16, ghost s: seq<ListHead>, ghost pre: seq<ListHead>)
    returns (list': ListHead, retval: bv16, ghost r: seq<ListHead>)
    requires IsList(list, pre) && multiset(pre) == multiset(s) && 3 <= |s| <= 0x8000_0000
    modifies s`next, Infos(s)`data16
    ensures IsList(list', r) && multiset(r) == multiset(s) && SortedStable(CmpIdx, pre, r)
    ensures DataKeptIn(s) && AllRebuilt(s) && |r| == |s| && list' == r[0]
    ensures retval == CrcTimes(r[0].info.data16, |r| - 1, crc)
  {
    hide IsList, SortedStable, NoDup;
    list', r := SortCells(list, CmpIdx, null, s, pre);
    SameCells(r, s);
    ListTail(list', r);
    retval := CrcCells(list', list'.next, crc, r[1..]);
  }

  /** The ties of s are kept exactly if its cells with the same idx have been put into their order. */
  lemma TiesAreDecided(s: seq<ListHead>, ns: seq<Node>, m: Midway, pos: Keys)
    requires NoDup(s) && multiset(m.pre) == multiset(s) && Ordered(m.keys, pos, m.pre) && SameNodes(s, ns)
    ensures KeepsTies(s, m.pre) <==> TiesInOrder(ns, m.keys, pos)
  {
    hide NoDup, Ordered, Rank, Before;
    SameCells(m.pre, s);
    NoDupIndices(s);
    forall i, j | 0 <= i < j < |s|
      ensures s[i] in m.pre && s[j] in m.pre
      ensures Rank(m.pre, s[i]) < Rank(m.pre, s[j]) <==> Before(m.keys, pos, ns[i].cell, ns[j].cell)
    {
      OrderDecides(m.keys, pos, m.pre, s[i], s[j]);
    }
  }

  /** When a round restores an idx-sorted list. */
  lemma RoundVerdict(s: seq<ListHead>, ns: seq<Node>, finder_idx: s16, find_num: s16, m: Midway, r: seq<ListHead>)
    requires NoDup(s) && multiset(r) == multiset(s) == multiset(m.pre) && SortedStable(CmpIdx, m.pre, r) && IdxSorted(s)
    requires |s| >= 2 && SameNodes(s, ns) && IsMidway(m, ns, finder_idx, find_num)
    ensures Verdict(r == s, m, ns, finder_idx, find_num)
  {
    hide SortedStable, Ranks, IdxSorted, NoDup, Ordered, Searched, Keyed, Foretold, TiesKnown, Returns, LastTarget, Rank,
      AllFail, DistinctIdx, TiesInOrder, KeepsTies;
    RoundEnds(s, m.pre, r);
    TiesAreDecided(s, ns, m, Ranks(Searched(ns, finder_idx, find_num)));
    if TiesKnown(ns, finder_idx) {
      ReturnsIsForeseen(ns, finder_idx, find_num, m.keys);
    }
    NoTies(ns, m.keys, Ranks(Searched(ns, finder_idx, find_num)));
    if finder_idx <= 0 && AllFail(ns, finder_idx, 0, Turns(find_num)) {
      VerdictInVain(s, ns, finder_idx, find_num, m);
    }
  }

  lemma NoTies(ns: seq<Node>, keys: Keys, pos: Keys)
    ensures DistinctIdx(ns) ==> TiesInOrder(ns, keys, pos)
  {
    hide Before;
  }

  lemma SameDistinct(s: seq<ListHead>, ns: seq<Node>)
    requires SameNodes(s, ns)
    ensures IdxDistinct(s) <==> DistinctIdx(ns)
  {
    if IdxDistinct(s) {
      forall i, j | 0 <= i < j < |ns|
        ensures ns[i].item.idx != ns[j].item.idx
      {
        assert s[i].info.idx != s[j].info.idx;
      }
    } else {
      var i, j :| 0 <= i < j < |s| && s[i].info.idx == s[j].info.idx;
      assert ns[i].item.idx == ns[j].item.idx;
    }
  }

  /** The same for failing searches without a data sort. */
  lemma VerdictInVain(s: seq<ListHead>, ns: seq<Node>, finder_idx: s16, find_num: s16, m: Midway)
    requires NoDup(s) && |s| >= 2 && SameNodes(s, ns) && IsMidway(m, ns, finder_idx, find_num)
    requires finder_idx <= 0 && AllFail(ns, finder_idx, 0, Turns(find_num))
    ensures KeepsTies(s, m.pre) <==> Turns(find_num) % 2 == 0 || DistinctIdx(ns)
  {
    hide NoDup, Searches, AllFail, Reversed, KeepsTies, IdxDistinct, DistinctIdx, Ordered, Foretold, LastTarget;
    SearchedInVain(ns, finder_idx, find_num);
    assert Cells(ns) == s;
    TiesOfReversed(s);
    SameDistinct(s, ns);
  }

  /** The steps of a round. */
  method RunRound(res: CoreResults, finder_idx: s16, ghost s: seq<ListHead>)
    returns (retval: bv16, list: ListHead, ghost m: Midway, ghost r: seq<ListHead>)
    requires IsList(res.list, s) && 3 <= |s| <= 0x8000_0000
    modifies s, Infos(s)`data16, res`crc, res`crcstate, res`crcmatrix
    ensures IsList(list, r) && multiset(r) == multiset(m.pre) == multiset(s) && SortedStable(CmpIdx, m.pre, r)
    ensures DataKeptIn(s) && AllRebuilt(s) && |r| == |s| && list == r[0] && res.list == old(res.list)
    ensures IsMidway(m, old(Nodes(s)), finder_idx, res.seed3)
    ensures Yields(retval, r[0].info.data16, m, old(Nodes(s)), finder_idx, res.seed3)
    ensures finder_idx <= 0 ==> ResultsKept(res)
  {
    hide IsList, IsMidway, YieldsMidway, Yields, Nodes, SortedStable, NoDup, CrcTimes;
    var head, crc;
    ghost var ns := Nodes(s);
    head, crc, m := BeforeFinalSort(res, finder_idx, s);
    list, retval, r := FinalSort(head, crc, s, m.pre);
    YieldsAtLast(crc, r[0].info.data16, m, ns, finder_idx, res.seed3);
  }

  twostate lemma SameNodesAsBefore(s: seq<ListHead>)
    requires DataKeptIn(s)
    ensures SameNodes(s, old(Nodes(s)))
  {
    assert forall i :: 0 <= i < |s| ==> s[i] in s;
  }

  /**
   * One round of the list benchmark. The list it ends with is the stable sort by idx of what it had before (m.pre),
   * which is what the searches have left or, if finder_idx is positive, the stable sort of that by 7-bit results; the
   * results in m.keys are those of the data words, where no benchmark has to be called to get them.
   * Every cell has its data item back, and data words whose two bytes agreed are unchanged.
   * A list that was sorted by idx is back to its original state exactly under the conditions of Verdict; always if the
   * idx values are distinct.
   */
  method CoreBenchList(res: CoreResults, finder_idx: s16, ghost s: seq<ListHead>)
    returns (retval: bv16, ghost list: ListHead, ghost m: Midway, ghost r: seq<ListHead>)
    requires IsList(res.list, s) && 3 <= |s| <= 0x8000_0000
    modifies s, Infos(s)`data16, res`crc, res`crcstate, res`crcmatrix
    ensures IsList(list, r) && multiset(r) == multiset(m.pre) == multiset(s) && SortedStable(CmpIdx, m.pre, r)
    ensures DataKeptIn(s) && AllRebuilt(s) && |r| == |s| && (r == s ==> list == old(res.list) == res.list)
    ensures IsMidway(m, old(Nodes(s)), finder_idx, res.seed3)
    ensures old(IdxSorted(s)) ==> Verdict(r == s, m, old(Nodes(s)), finder_idx, res.seed3)
    ensures old(IdxSorted(s) && IdxDistinct(s)) ==> r == s
    ensures Yields(retval, r[0].info.data16, m, old(Nodes(s)), finder_idx, res.seed3)
    ensures finder_idx <= 0 ==> ResultsKept(res)
  {
    hide IsList, Nodes, SortedStable, IdxSorted, IdxDistinct, DistinctIdx, NoDup, Turns, IsMidway, TiesInOrder, TiesKnown,
      Returns, Yields, SameNodes, Searched, AllFail;
    ListNoDup(res.list, s);
    ghost var ns := Nodes(s);
    retval, list, m, r := RunRound(res, finder_idx, s);
    SameIdx(s);
    SameNodesAsBefore(s);
    SameDistinct(s, ns);
    if IdxSorted(s) {
      RoundVerdict(s, ns, finder_idx, res.seed3, m, r);
    }
  }

  /** Every cell of s and its data are exactly as before. */
  twostate predicate Restored(s: seq<ListHead>)
    reads s, set c | c in s :: c.info
  {
    forall c :: c in s ==>
      && c.next == old(c.next) && c.info == old(c.info)
      && c.info.idx == old(c.info.idx) && c.info.data16 == old(c.info.data16)
  }

  lemma ListLinks(list: ListHead?, s: seq<ListHead>)
    requires IsList(list, s)
    ensures forall i {:trigger s[i]} :: 0 <= i < |s| ==> s[i].next == (if i + 1 < |s| then s[i + 1] else null)
  {
  }

  /** What a round needs of the list, and what core_list_init provides if its idx values are distinct. */
  ghost predicate RoundReady(list: ListHead?, s: seq<ListHead>)
    reads s, set c | c in s :: c.info
  {
    IsList(list, s) && 3 <= |s| <= 0x8000_0000 && IdxSorted(s) && IdxDistinct(s) && AllRebuilt(s)
  }

  /** The value of a round is a function of the list, unless it sorts by data or looks for an uninitialised byte. */
  ghost predicate Valued(crc: bv16, ns: seq<Node>, finder_idx: s16, find_num: s16)
    requires |ns| >= 3
  {
    finder_idx <= 0 && (find_num > 0 || finder_idx == 0) ==> crc == ListValue(ns, finder_idx, find_num)
  }

  lemma RoundIsValued(crc: bv16, first: Word16, m: Midway, ns: seq<Node>, finder_idx: s16, find_num: s16)
    requires |ns| >= 3 && IsMidway(m, ns, finder_idx, find_num) && Yields(crc, first, m, ns, finder_idx, find_num)
    requires first == ns[0].item.data16 && Rebuilt(first)
    ensures Valued(crc, ns, finder_idx, find_num)
  {
    hide IsMidway, Yields, ListValue;
    if finder_idx <= 0 && (find_num > 0 || finder_idx == 0) {
      ValueIsListValue(crc, m, ns, finder_idx, find_num);
    }
  }

  /** "At the end of this function, the list is back to original state." */
  method Round(res: CoreResults, finder_idx: s16, ghost s: seq<ListHead>) returns (crc: bv16)
    requires RoundReady(res.list, s)
    modifies s, Infos(s)`data16, res`crc, res`crcstate, res`crcmatrix
    ensures RoundReady(res.list, s) && res.list == old(res.list)
    ensures Restored(s) && Valued(crc, old(Nodes(s)), finder_idx, res.seed3)
    ensures finder_idx <= 0 ==> ResultsKept(res)
  {
    hide IsList, IdxSorted, IdxDistinct, Nodes, IsMidway, Yields, Verdict, SortedStable, Valued;
    ListLinks(res.list, s);
    ghost var list, m, r;
    ghost var ns := Nodes(s);
    crc, list, m, r := CoreBenchList(res, finder_idx, s);
    SameIdx(s);
    ListLinks(res.list, s);
    RoundIsValued(crc, r[0].info.data16, m, ns, finder_idx, res.seed3);
  }

  /** `crc=core_bench_list(res,idx); res->crc=crcu16(crc,res->crc);`; sorted is the crc that the data sort has left. */
  method RoundAndCrc(res: CoreResults, finder_idx: s16, ghost s: seq<ListHead>)
    returns (ghost value: bv16, ghost sorted: bv16)
    requires RoundReady(res.list, s)
    modifies s, Infos(s)`data16, res`crc, res`crcstate, res`crcmatrix
    ensures RoundReady(res.list, s) && res.list == old(res.list)
    ensures Restored(s) && Nodes(s) == old(Nodes(s)) && Valued(value, old(Nodes(s)), finder_idx, res.seed3)
    ensures res.crc == Crc.CrcU16(value, sorted) && (finder_idx <= 0 ==> sorted == old(res.crc))
  {
    hide RoundReady, Nodes, Valued, Crc.CrcU16;
    var crc := Round(res, finder_idx, s);
    NodesKept(s);
    value, sorted := crc, res.crc;
    res.crc := Crc.CrcU16(crc, res.crc);
  }

  lemma ReadyLength(list: ListHead?, s: seq<ListHead>)
    requires RoundReady(list, s)
    ensures |s| >= 3
  {
  }

  /** The rounds of one turn: what they return, and what the data sort of the first one leaves in the crc. */
  datatype TurnValues = TurnValues(sorted: bv16, first: bv16, second: bv16)

  /** The crc after a turn. */
  function TurnCrc(v: TurnValues): bv16 {
    Crc.CrcU16(v.second, Crc.CrcU16(v.first, v.sorted))
  }

  /**
   * The list rounds of iterate: every round starts from the same list, and every round with index -1 that searches
   * has the same value, which depends on nothing but the list. The crc takes in the two values of each turn, the first
   * one behind what the data sort has left there, and crclist is the crc after the first turn.
   */
  method Iterate(res: CoreResults, iterations: u32, ghost s: seq<ListHead>)
    returns (crclist: bv16, ghost values: seq<TurnValues>)
    requires RoundReady(res.list, s)
    modifies s, Infos(s)`data16, res`crc, res`crcstate, res`crcmatrix
    ensures RoundReady(res.list, s) && res.list == old(res.list)
    ensures Restored(s)
    ensures |values| == iterations
    ensures res.seed3 > 0 ==>
              forall k :: 0 <= k < iterations ==> values[k].second == ListValue(old(Nodes(s)), -1, res.seed3)
    ensures if iterations == 0 then res.crc == crclist == 0
            else crclist == TurnCrc(values[0]) && res.crc == TurnCrc(values[iterations - 1])
  {
    hide RoundReady, Nodes, ListValue, Crc.CrcU16;
    ReadyLength(res.list, s);
    res.crc, res.crcmatrix, res.crcstate := 0, Word16(0, 0), Word16(0, 0);
    crclist, values := 0, [];
    var i: u32 := 0;
    ghost var ns := Nodes(s);
    while i < iterations
      invariant i <= iterations && RoundReady(res.list, s) && res.list == old(res.list)
      invariant Restored(s) && Nodes(s) == ns && |ns| >= 3 && |values| == i
      invariant res.seed3 > 0 ==> forall k :: 0 <= k < i ==> values[k].second == ListValue(ns, -1, res.seed3)
      invariant if i == 0 then res.crc == crclist == 0
                else crclist == TurnCrc(values[0]) && res.crc == TurnCrc(values[i - 1])
    {
      ghost var first, sorted := RoundAndCrc(res, 1, s);
      ghost var second, before := RoundAndCrc(res, -1, s);
      values := values + [TurnValues(sorted, first, second)];
      if i == 0 {
        crclist := res.crc;
      }
      i := i + 1;
    }
  }
}
