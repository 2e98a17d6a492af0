/** What a round of the list benchmark makes of a list, as far as it can be told beforehand (core_list_join.c). */
module ListVerdict {
  import opened Words
  import opened WordBits
  import opened ListCells
  import opened ListCompare
  import opened ListRuns
  import opened ListMergesort
  import opened ListOps
  import opened ListSearch
  import Crc

  /** n times the same data word. */
  ghost function CrcTimes(data: Word16, n: nat, crc: bv16): bv16 {
    if n == 0 then crc else CrcTimes(data, n - 1, Crc.CrcWord(data, crc))
  }

  lemma {:induction false} CrcTimesIsStream(data: Word16, n: nat, crc: bv16)
    ensures CrcTimes(data, n, crc) == Crc.CrcStream(seq(n, _ => Bits(data)), crc)
  {
    hide Bits, Crc.CrcU16, Crc.CrcWord;
    if n > 0 {
      var words := seq(n, _ => Bits(data));
      assert words[1..] == seq(n - 1, _ => Bits(data));
      Crc.CrcWordIs(data, crc);
      CrcTimesIsStream(data, n - 1, Crc.CrcWord(data, crc));
    }
  }

  /** The order of the cells after the search loop. */
  ghost function Searched(ns: seq<Node>, finder_idx: s16, find_num: s16): seq<ListHead>
    requires |ns| >= 2
  {
    Cells(Searches(ns, finder_idx, 0, Turns(find_num)).0)
  }

  /**
   * What a round has before its final sort: the order of the cells, the key each of them had in the data sort,
   * what the cells held then, and what the last search looked for.
   */
  datatype Midway = Midway(pre: seq<ListHead>, keys: Keys, ns: seq<Node>, info: Target)

  /** The data sort goes by a 7-bit result; without a data sort every cell has the same key. */
  function ItemKey(finder_idx: s16, item: Item): nat {
    if finder_idx > 0 then Low7(item.data16) else 0
  }

  predicate KeyKnown(finder_idx: s16, item: Item) {
    finder_idx > 0 ==> Foreseen(item.data16)
  }

  /** keys holds the key of every cell; those that can be foreseen are read off from the items. */
  ghost predicate Foretold(ns: seq<Node>, finder_idx: s16, keys: Keys) {
    forall i :: 0 <= i < |ns| ==>
      && ns[i].cell in keys && 0 <= keys[ns[i].cell] < 0x80
      && (KeyKnown(finder_idx, ns[i].item) ==> keys[ns[i].cell] == ItemKey(finder_idx, ns[i].item))
  }

  /** The data sort leaves the key in the low byte of the item, with bit 7 set, and nothing else is changed. */
  ghost predicate Keyed(ns: seq<Node>, keys: Keys, after: seq<Node>) {
    forall i, j :: 0 <= i < |after| && 0 <= j < |ns| && after[i].cell == ns[j].cell ==>
      && ns[j].cell in keys && 0 <= keys[ns[j].cell] < 0x80
      && after[i].item == Item(Word16(ns[j].item.data16.hi, 0x80 + keys[ns[j].cell]), ns[j].item.idx)
  }

  /** The target after the searches; without any search its data16 is not initialised. */
  ghost predicate LastTarget(info: Target, finder_idx: s16, n: nat) {
    info.idx == IdxAfter(finder_idx, n) && (n > 0 ==> info.data16 == (n - 1) % 0x100)
  }

  /** The searches have been made on ns and, if finder_idx is positive, the cells have then been sorted by their data. */
  ghost predicate IsMidway(m: Midway, ns: seq<Node>, finder_idx: s16, find_num: s16)
    requires |ns| >= 2
  {
    && multiset(m.pre) == multiset(Cells(ns)) && m.pre == Cells(m.ns)
    && Foretold(ns, finder_idx, m.keys)
    && Ordered(m.keys, Ranks(Searched(ns, finder_idx, find_num)), m.pre)
    && (if finder_idx > 0 then Keyed(ns, m.keys, m.ns)
        else m.ns == Searches(ns, finder_idx, 0, Turns(find_num)).0)
    && LastTarget(m.info, finder_idx, Turns(find_num))
  }

  /** A sort by recorded keys is a sort by the recorded order. */
  lemma SortedIsOrdered(cmp: Comparator, cur: seq<ListHead>, pre: seq<ListHead>, keys: Keys)
    requires SortedStable(cmp, cur, pre)
    requires forall i :: 0 <= i < |pre| ==> pre[i] in keys && keys[pre[i]] == Key(cmp, pre[i].info)
    ensures Ordered(keys, Ranks(cur), pre)
  {
  }

  /** The order of a list itself, if all keys are the same. */
  lemma UnsortedIsOrdered(pre: seq<ListHead>, keys: Keys)
    requires NoDup(pre) && forall i :: 0 <= i < |pre| ==> pre[i] in keys && keys[pre[i]] == 0
    ensures Ordered(keys, Ranks(pre), pre)
  {
    forall i | 0 <= i < |pre|
      ensures Rank(pre, pre[i]) == i
    {
      RankIs(pre, i);
    }
  }

  /** Cells with the same idx have been put into the order in which they stand in the list. */
  ghost predicate TiesInOrder(ns: seq<Node>, keys: Keys, pos: Keys) {
    forall i, j :: 0 <= i < j < |ns| && ns[i].item.idx == ns[j].item.idx ==> Before(keys, pos, ns[i].cell, ns[j].cell)
  }

  /** The same before the round, from the data words of the list. */
  ghost predicate Returns(ns: seq<Node>, finder_idx: s16, find_num: s16)
    requires |ns| >= 2
  {
    var mid := Searched(ns, finder_idx, find_num);
    forall i, j :: 0 <= i < j < |ns| && ns[i].item.idx == ns[j].item.idx ==>
      && ns[i].cell in mid && ns[j].cell in mid
      && (ItemKey(finder_idx, ns[i].item) < ItemKey(finder_idx, ns[j].item)
          || (ItemKey(finder_idx, ns[i].item) == ItemKey(finder_idx, ns[j].item)
              && Rank(mid, ns[i].cell) < Rank(mid, ns[j].cell)))
  }

  /** The keys of cells with the same idx can be foreseen; so it is without a data sort, and with distinct indices. */
  ghost predicate TiesKnown(ns: seq<Node>, finder_idx: s16) {
    forall i, j :: 0 <= i < j < |ns| && ns[i].item.idx == ns[j].item.idx ==>
      KeyKnown(finder_idx, ns[i].item) && KeyKnown(finder_idx, ns[j].item)
  }

  lemma ReturnsIsForeseen(ns: seq<Node>, finder_idx: s16, find_num: s16, keys: Keys)
    requires |ns| >= 2 && Foretold(ns, finder_idx, keys) && TiesKnown(ns, finder_idx)
    ensures TiesInOrder(ns, keys, Ranks(Searched(ns, finder_idx, find_num))) <==> Returns(ns, finder_idx, find_num)
  {
    hide ItemKey, KeyKnown, Searched;
  }

  /** Two cells with the same idx whose keys are known and decrease. */
  ghost predicate Decreases(ns: seq<Node>, finder_idx: s16, i: nat, j: nat) {
    && i < j < |ns| && ns[i].item.idx == ns[j].item.idx
    && KeyKnown(finder_idx, ns[i].item) && KeyKnown(finder_idx, ns[j].item)
    && ItemKey(finder_idx, ns[i].item) > ItemKey(finder_idx, ns[j].item)
  }

  ghost predicate HasDecreasingTie(ns: seq<Node>, finder_idx: s16) {
    exists i, j :: Decreases(ns, finder_idx, i, j)
  }

  /** Such cells come out in the other order, whatever the searches and the other keys are. */
  lemma DecreasingTie(ns: seq<Node>, finder_idx: s16, keys: Keys, pos: Keys)
    requires Foretold(ns, finder_idx, keys) && HasDecreasingTie(ns, finder_idx)
    ensures !TiesInOrder(ns, keys, pos)
  {
    hide ItemKey, KeyKnown;
    var i: nat, j: nat :| Decreases(ns, finder_idx, i, j);
    assert !Before(keys, pos, ns[i].cell, ns[j].cell);
  }

  /** The number of nodes behind the first one that is hit, or behind the head if none is. */
  ghost function NodesFrom(ns: seq<Node>, info: Target): nat
    requires |ns| > 0
  {
    var k := FirstHit(ns, info);
    if k == |ns| then |ns| - 1 else |ns| - k
  }

  /** The CRC while the second item is out of the list. */
  ghost function MiddleCrc(ns: seq<Node>, info: Target, crc: bv16): bv16
    requires |ns| >= 3
  {
    CrcTimes(ns[0].item.data16, NodesFrom(Without(ns, 0), info), crc)
  }

  /** What the searches add up to. */
  ghost function SearchValue(ns: seq<Node>, finder_idx: s16, find_num: s16): bv16
    requires |ns| >= 2
  {
    Bits16(Searches(ns, finder_idx, 0, Turns(find_num)).1 % 0x1_0000)
  }

  /** The value of a round; first is the data word of the head of the final list. */
  ghost function RoundValue(m: Midway, count: bv16, first: Word16): bv16
    requires |m.ns| >= 3
  {
    CrcTimes(first, |m.ns| - 1, MiddleCrc(m.ns, m.info, count))
  }

  /**
   * The value of a round as the CRC of a stream of words: what the searches add up to; then, for each cell from the
   * first match on in the list without its second item, or from its second cell on if nothing matches, the data word
   * of the head; then the word first for each cell but one.
   */
  lemma RoundValueIsStream(m: Midway, count: bv16, first: Word16)
    requires |m.ns| >= 3
    ensures var shorter := [m.ns[0]] + m.ns[2..];
            var k := FirstHit(shorter, m.info);
            var cells := if k < |shorter| then |shorter| - k else |shorter| - 1;
            RoundValue(m, count, first) ==
              Crc.CrcStream(seq(cells, _ => Bits(m.ns[0].item.data16)) + seq(|m.ns| - 1, _ => Bits(first)), count)
  {
    hide FirstHit, Bits, CrcTimes, Crc.CrcStream;
    var shorter := [m.ns[0]] + m.ns[2..];
    assert shorter == Without(m.ns, 0);
    var cells := NodesFrom(shorter, m.info);
    CrcTimesIsStream(m.ns[0].item.data16, cells, count);
    CrcTimesIsStream(first, |m.ns| - 1, CrcTimes(m.ns[0].item.data16, cells, count));
    StreamSplit(seq(cells, _ => Bits(m.ns[0].item.data16)), seq(|m.ns| - 1, _ => Bits(first)), count);
  }

  lemma {:induction false} StreamSplit(a: seq<bv16>, b: seq<bv16>, crc: bv16)
    ensures Crc.CrcStream(a + b, crc) == Crc.CrcStream(b, Crc.CrcStream(a, crc))
  {
    hide Crc.CrcU16;
    if |a| == 0 {
      assert a + b == b;
    } else {
      assert (a + b)[1..] == a[1..] + b;
      StreamSplit(a[1..], b, Crc.CrcU16(a[0], crc));
    }
  }

  /** The value of a round without data sort that gives a list back, computed from the list alone. */
  ghost function ListValue(ns: seq<Node>, finder_idx: s16, find_num: s16): bv16
    requires |ns| >= 3
  {
    var r := Searches(ns, finder_idx, 0, Turns(find_num));
    assert |multiset(r.0)| == |r.0|;
    var info := Target(IdxAfter(finder_idx, Turns(find_num)), if find_num > 0 then (find_num - 1) % 0x100 else 0);
    var hi := ns[0].item.data16.hi;
    RoundValue(Midway(Cells(r.0), map[], r.0, info), SearchValue(ns, finder_idx, find_num), Word16(hi, hi))
  }

  /** A target with an idx does not look at data words. */
  lemma {:induction false} HitByIdx(ns: seq<Node>, a: Target, b: Target)
    requires a.idx == b.idx >= 0
    ensures FirstHit(ns, a) == FirstHit(ns, b)
  {
    if |ns| > 0 {
      HitByIdx(ns[1..], a, b);
    }
  }

  /** The value depends on nothing but the list, unless the last search looks for an uninitialised data byte. */
  lemma ValueIsListValue(value: bv16, m: Midway, ns: seq<Node>, finder_idx: s16, find_num: s16)
    requires |ns| >= 3 && IsMidway(m, ns, finder_idx, find_num) && finder_idx <= 0 && (find_num > 0 || finder_idx == 0)
    requires Yields(value, Word16(ns[0].item.data16.hi, ns[0].item.data16.hi), m, ns, finder_idx, find_num)
    ensures value == ListValue(ns, finder_idx, find_num)
  {
    hide Searches, FirstHit, CrcTimes, Foretold, Ordered, Without, SearchValue;
    assert |multiset(Searches(ns, finder_idx, 0, Turns(find_num)).0)| == |m.ns|;
    if find_num <= 0 {
      HitByIdx(Without(m.ns, 0), m.info, Target(0, 0));
    }
  }

  /** What a round returns: the CRCs over the list without its second item and over the final list, headed by first. */
  ghost predicate Yields(value: bv16, first: Word16, m: Midway, ns: seq<Node>, finder_idx: s16, find_num: s16)
    requires |ns| >= 3
  {
    |m.ns| == |ns| && value == RoundValue(m, SearchValue(ns, finder_idx, find_num), first)
  }

  /** The CRC that a round has before the final sort. */
  ghost predicate YieldsMidway(value: bv16, m: Midway, ns: seq<Node>, finder_idx: s16, find_num: s16)
    requires |ns| >= 3
  {
    |m.ns| == |ns| && value == MiddleCrc(m.ns, m.info, SearchValue(ns, finder_idx, find_num))
  }

  lemma YieldsAtLast(middle: bv16, first: Word16, m: Midway, ns: seq<Node>, finder_idx: s16, find_num: s16)
    requires |ns| >= 3 && YieldsMidway(middle, m, ns, finder_idx, find_num)
    ensures Yields(CrcTimes(first, |ns| - 1, middle), first, m, ns, finder_idx, find_num)
  {
    hide MiddleCrc, CrcTimes, SearchValue;
  }

  ghost predicate DistinctIdx(ns: seq<Node>) {
    forall i, j :: 0 <= i < j < |ns| ==> ns[i].item.idx != ns[j].item.idx
  }

  /**
   * When an idx-sorted list is back after a round: if and only if searches and data sort have left cells with the same
   * idx in their order. If the keys of such cells can be foreseen, this can be told before the round; with distinct
   * indices it is so. When no search finds anything and there is no data sort, each search reverses the list, and then
   * it is back if and only if the number of searches is even or the indices are distinct.
   */
  ghost predicate Verdict(back: bool, m: Midway, ns: seq<Node>, finder_idx: s16, find_num: s16)
    requires |ns| >= 2
  {
    && (back <==> TiesInOrder(ns, m.keys, Ranks(Searched(ns, finder_idx, find_num))))
    && (TiesKnown(ns, finder_idx) ==> (back <==> Returns(ns, finder_idx, find_num)))
    && (DistinctIdx(ns) ==> back)
    && (finder_idx <= 0 && AllFail(ns, finder_idx, 0, Turns(find_num)) ==>
          (back <==> Turns(find_num) % 2 == 0 || DistinctIdx(ns)))
  }

  lemma CellsReversed(ns: seq<Node>)
    ensures Cells(Reversed(ns)) == Reversed(Cells(ns))
  {
    hide Reversed;
    ReversedTwice(ns);
    ReversedTwice(Cells(ns));
    forall k | 0 <= k < |ns|
      ensures Cells(Reversed(ns))[k] == Reversed(Cells(ns))[k]
    {
      ReversedAt(ns, k);
      ReversedAt(Cells(ns), k);
    }
  }

  /** What failing searches leave of the list. */
  lemma SearchedInVain(ns: seq<Node>, finder_idx: s16, find_num: s16)
    requires |ns| >= 2 && AllFail(ns, finder_idx, 0, Turns(find_num))
    ensures Searched(ns, finder_idx, find_num) == if Turns(find_num) % 2 == 0 then Cells(ns) else Reversed(Cells(ns))
  {
    hide Searches, Reversed, AllFail;
    FailingSearches(ns, finder_idx, 0, Turns(find_num));
    CellsReversed(ns);
  }

  /** Of two cells of an ordered list, the one that may stand first does. */
  lemma OrderDecides(keys: Keys, pos: Keys, pre: seq<ListHead>, x: ListHead, y: ListHead)
    requires Ordered(keys, pos, pre) && x in pre && y in pre && x != y
    ensures Rank(pre, x) < Rank(pre, y) <==> Before(keys, pos, x, y)
  {
    var a, b := Rank(pre, x), Rank(pre, y);
    if a < b {
      assert Before(keys, pos, pre[a], pre[b]);
    } else {
      assert Before(keys, pos, pre[b], pre[a]);
    }
  }
}
