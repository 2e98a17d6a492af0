/** The search loop of core_bench_list: find a cell, reverse the list, and move a cell to the front (core_list_join.c). */
module ListSearch {
  import opened Words
  import opened WordBits
  import opened ListCells
  import opened ListOps

  /** A cell with what its data item holds. */
  datatype Node = Node(cell: ListHead, item: Item)

  ghost function Nodes(s: seq<ListHead>): (ns: seq<Node>)
    reads s`info, set c | c in s :: c.info
    ensures |ns| == |s| && forall i :: 0 <= i < |s| ==> ns[i] == Node(s[i], ItemOf(s[i].info))
  {
    if |s| == 0 then [] else [Node(s[0], ItemOf(s[0].info))] + Nodes(s[1..])
  }

  ghost function Cells(ns: seq<Node>): (s: seq<ListHead>)
    ensures |s| == |ns| && forall i :: 0 <= i < |ns| ==> s[i] == ns[i].cell
  {
    seq(|ns|, i requires 0 <= i < |ns| => ns[i].cell)
  }

  lemma CellsOfNodes(s: seq<ListHead>)
    ensures Cells(Nodes(s)) == s
  {
  }

  ghost predicate Missing(ns: seq<Node>, info: Target) {
    forall i :: 0 <= i < |ns| ==> !Hits(ns[i].item, info)
  }

  /** The number of nodes in front of the first one that is hit. */
  ghost function FirstHit(ns: seq<Node>, info: Target): (k: nat)
    ensures k <= |ns| && Missing(ns[..k], info) && (k < |ns| ==> Hits(ns[k].item, info))
  {
    if |ns| == 0 || Hits(ns[0].item, info) then 0 else 1 + FirstHit(ns[1..], info)
  }

  lemma {:induction false} FirstHitIs(ns: seq<Node>, info: Target, k: nat)
    requires k <= |ns| && (forall i :: 0 <= i < k ==> !Hits(ns[i].item, info)) && (k < |ns| ==> Hits(ns[k].item, info))
    ensures FirstHit(ns, info) == k
  {
    hide Hits;
    if k > 0 {
      FirstHitIs(ns[1..], info, k - 1);
    }
  }

  /** What one search makes of the list. */
  ghost function SearchOnce(ns: seq<Node>, info: Target): (r: seq<Node>)
    ensures multiset(r) == multiset(ns)
  {
    var k := FirstHit(ns, info);
    assert |Reversed(ns)| == |multiset(ns)|;
    if k == |ns| || k == 0 then Reversed(ns)
    else
      MovedKeeps(Reversed(ns), |ns| - 1 - k);
      Moved(Reversed(ns), |ns| - 1 - k)
  }

  /** `if (this_find->info->data16 & 0x1) retval+=(this_find->info->data16 >> 9) & 1;` */
  function CachedBit(data: Word16): (bit: nat)
    ensures bit < 2
  {
    if data.lo % 2 == 1 then data.hi / 2 % 2 else 0
  }

  /** What one search adds to the value returned: -1 or 4, and a bit of the data of a cell. */
  ghost function Gain(ns: seq<Node>, info: Target): int
    requires |ns| >= 2
  {
    var k := FirstHit(ns, info);
    if k == |ns| then ns[|ns| - 2].item.data16.hi % 2 - 1
    else 4 + CachedBit(ns[k].item.data16)
  }

  /** The same in terms of the 16-bit data words: found counts 4, missed -1, and which bit of which word is added. */
  lemma GainIsBits(ns: seq<Node>, info: Target)
    requires |ns| >= 2
    ensures var k := FirstHit(ns, info);
            && (k == |ns| ==> Gain(ns, info) == ((Bits(ns[|ns| - 2].item.data16) >> 8) & 1) as int - 1)
            && (k < |ns| ==>
                var w := Bits(ns[k].item.data16);
                Gain(ns, info) == 4 + if w & 1 == 1 then ((w >> 9) & 1) as int else 0)
  {
    hide FirstHit, Bits;
    var k := FirstHit(ns, info);
    var d := ns[if k < |ns| then k else |ns| - 2].item.data16;
    UpperFields(d);
    LowerFields(d);
    OneAsInt(Bits(d));
  }

  lemma OneAsInt(w: bv16)
    ensures w & 1 == 1 <==> (w & 1) as int == 1
  {
  }

  /** `if (info.idx>=0) info.idx++;` */
  function NextIdx(idx: s16): s16 {
    if idx >= 0 then ToS16(idx + 1) else idx
  }

  /** The index looked for after n searches. */
  function IdxAfter(idx: s16, n: nat): s16 {
    if n == 0 then idx else NextIdx(IdxAfter(idx, n - 1))
  }

  /** Searches number i to n - 1: what they make of the list, and what they add to the value returned. */
  ghost function Searches(ns: seq<Node>, idx: s16, i: nat, n: nat): (r: (seq<Node>, int))
    requires |ns| >= 2
    ensures multiset(r.0) == multiset(ns)
    decreases n - i
  {
    if i >= n then (ns, 0)
    else
      var info := Target(idx, i % 0x100);
      assert |SearchOnce(ns, info)| == |multiset(ns)|;
      var rest := Searches(SearchOnce(ns, info), NextIdx(idx), i + 1, n);
      (rest.0, Gain(ns, info) + rest.1)
  }

  /** None of the searches number i to n - 1 finds anything. */
  ghost predicate AllFail(ns: seq<Node>, idx: s16, i: nat, n: nat)
    decreases n - i
  {
    i < n ==> Missing(ns, Target(idx, i % 0x100)) && AllFail(ns, NextIdx(idx), i + 1, n)
  }

  lemma ReversedTwice<T>(s: seq<T>)
    ensures |Reversed(s)| == |s| && Reversed(Reversed(s)) == s
  {
    hide Reversed;
    assert |Reversed(s)| == |multiset(s)|;
    assert |Reversed(Reversed(s))| == |multiset(s)|;
    forall k | 0 <= k < |s|
      ensures Reversed(Reversed(s))[k] == s[k]
    {
      ReversedAt(Reversed(s), k);
      ReversedAt(s, |s| - 1 - k);
    }
  }

  lemma MissingReversed(ns: seq<Node>, info: Target)
    requires Missing(ns, info)
    ensures Missing(Reversed(ns), info)
  {
    assert |Reversed(ns)| == |multiset(ns)|;
    forall k | 0 <= k < |ns|
      ensures !Hits(Reversed(ns)[k].item, info)
    {
      ReversedAt(ns, k);
    }
  }

  lemma {:induction false} AllFailReversed(ns: seq<Node>, idx: s16, i: nat, n: nat)
    requires AllFail(ns, idx, i, n)
    ensures AllFail(Reversed(ns), idx, i, n)
    decreases n - i
  {
    hide Missing, Reversed, NextIdx;
    if i < n {
      MissingReversed(ns, Target(idx, i % 0x100));
      AllFailReversed(ns, NextIdx(idx), i + 1, n);
    }
  }

  lemma SameCells(cur: seq<ListHead>, s: seq<ListHead>)
    requires multiset(cur) == multiset(s)
    ensures |cur| == |s| && (forall i :: 0 <= i < |cur| ==> cur[i] in s) && (forall i :: 0 <= i < |s| ==> s[i] in cur)
  {
    assert |cur| == |multiset(cur)| == |s|;
    forall i | 0 <= i < |cur| ensures cur[i] in s {
      assert cur[i] in multiset(s);
    }
    forall i | 0 <= i < |s| ensures s[i] in cur {
      assert s[i] in multiset(cur);
    }
  }

  lemma FirstTwo(list: ListHead?, s: seq<ListHead>)
    requires IsList(list, s) && |s| >= 2
    ensures list != null && list == s[0] && list.next == s[1]
  {
  }

  /** The cell at position k of a list stands at the mirrored position of the reversed list. */
  lemma InReversed(s: seq<ListHead>, k: nat)
    requires k < |s|
    ensures |Reversed(s)| == |s| && Reversed(s)[|s| - 1 - k] == s[k]
  {
    ReversedAt(s, |s| - 1 - k);
  }

  lemma ListIsTerminated(list: ListHead?, s: seq<ListHead>)
    requires IsList(list, s)
    ensures list == Head(s, null) && Terminated(s)
  {
  }

  lemma NodesReversed(s: seq<ListHead>)
    ensures |Reversed(s)| == |s| && Nodes(Reversed(s)) == Reversed(Nodes(s))
  {
    hide Reversed, Nodes;
    ReversedTwice(s);
    ReversedTwice(Nodes(s));
    forall k | 0 <= k < |s|
      ensures Nodes(Reversed(s))[k] == Reversed(Nodes(s))[k]
    {
      ReversedAt(s, k);
      ReversedAt(Nodes(s), k);
    }
  }

  lemma MovedAt<T>(s: seq<T>, k: nat, i: nat)
    requires k + 1 < |s| && i < |s|
    ensures Moved(s, k)[i] == if k == 0 || i == 0 || i > k + 1 then s[i] else if i == 1 then s[k + 1] else s[i - 1]
  {
  }

  lemma NodesMoved(s: seq<ListHead>, k: nat)
    requires k + 1 < |s|
    ensures Nodes(Moved(s, k)) == Moved(Nodes(s), k)
  {
    hide Nodes, Moved;
    forall i | 0 <= i < |s|
      ensures Nodes(Moved(s, k))[i] == Moved(Nodes(s), k)[i]
    {
      MovedAt(s, k, i);
      MovedAt(Nodes(s), k, i);
    }
  }

  /** core_list_find, in terms of nodes. */
  lemma FoundIsFirstHit(s: seq<ListHead>, info: Target, k: nat)
    requires k <= |s| && (forall i :: 0 <= i < k ==> !Matches(s[i].info, info)) && (k < |s| ==> Matches(s[k].info, info))
    ensures FirstHit(Nodes(s), info) == k
  {
    hide Nodes, Hits, FirstHit;
    FirstHitIs(Nodes(s), info, k);
  }

  /** What the counters are worth in the value returned. */
  function Score(retval: u16, found: u16, missed: u16): int {
    retval + found * 4 - missed
  }

  lemma ScoreMissed(retval: u16, found: u16, missed: u16, bit: nat)
    requires bit < 2
    ensures Score((retval + bit) % 0x1_0000, found, (missed + 1) % 0x1_0000) % 0x1_0000
         == (Score(retval, found, missed) + (bit - 1)) % 0x1_0000
  {
  }

  lemma ScoreFound(retval: u16, found: u16, missed: u16, bit: nat)
    requires bit < 2
    ensures Score((retval + bit) % 0x1_0000, (found + 1) % 0x1_0000, missed) % 0x1_0000
         == (Score(retval, found, missed) + (4 + bit)) % 0x1_0000
  {
  }

  /** A cell was found: use its value, and "cache next item at the head of the list (if any)". */
  method UseFound(list: ListHead, this_find: ListHead, retval: u16, ghost cur: seq<ListHead>, ghost k: nat)
    returns (retval': u16, ghost cur': seq<ListHead>)
    requires IsList(list, cur) && k < |cur| && this_find == cur[k]
    modifies cur`next
    ensures IsList(list, cur') && multiset(cur') == multiset(cur)
    ensures cur' == if k + 1 < |cur| then Moved(cur, k) else cur
    ensures retval' == (retval + CachedBit(this_find.info.data16)) % 0x1_0000
  {
    hide IsList, Moved;
    retval' := retval;
    if this_find.info.data16.lo % 2 == 1 {
      retval' := (retval + this_find.info.data16.hi / 2 % 2) % 0x1_0000;
    }
    cur' := if k + 1 < |cur| then Moved(cur, k) else cur;
    if k + 1 < |cur| {
      MovedIsPermutation(cur, k);
    }
    CacheNext(list, this_find, cur, k);
  }

  lemma OnceMissed(ns: seq<Node>, info: Target)
    requires |ns| >= 2 && FirstHit(ns, info) == |ns|
    ensures SearchOnce(ns, info) == Reversed(ns) && Gain(ns, info) == ns[|ns| - 2].item.data16.hi % 2 - 1
  {
    hide Reversed, FirstHit;
  }

  lemma OnceFound(ns: seq<Node>, info: Target, k: nat)
    requires |ns| >= 2 && FirstHit(ns, info) == k < |ns|
    ensures |Reversed(ns)| == |ns|
    ensures SearchOnce(ns, info) == if |ns| - 1 - k + 1 < |ns| then Moved(Reversed(ns), |ns| - 1 - k) else Reversed(ns)
    ensures Gain(ns, info) == 4 + CachedBit(ns[k].item.data16)
  {
    hide Reversed, FirstHit, Moved;
    assert |Reversed(ns)| == |multiset(ns)|;
  }

  /** `missed++; retval+=(list->next->info->data16 >> 8) & 1;` */
  method CountMissed(list: ListHead, retval: u16, missed: u16, ghost found: u16, ghost rev: seq<ListHead>)
    returns (retval': u16, missed': u16)
    requires IsList(list, rev) && |rev| >= 2
    ensures Score(retval', found, missed') % 0x1_0000
         == (Score(retval, found, missed) + (rev[1].info.data16.hi % 2 - 1)) % 0x1_0000
  {
    FirstTwo(list, rev);
    missed' := (missed + 1) % 0x1_0000;
    retval' := (retval + list.next.info.data16.hi % 2) % 0x1_0000;
    hide Score;
    ScoreMissed(retval, found, missed, rev[1].info.data16.hi % 2);
  }

  /** `found++;` and the use of the cell found. */
  method CountFound(list: ListHead, this_find: ListHead, retval: u16, found: u16, ghost missed: u16,
                    ghost rev: seq<ListHead>, ghost j: nat)
    returns (retval': u16, found': u16, ghost cur': seq<ListHead>)
    requires IsList(list, rev) && j < |rev| && this_find == rev[j]
    modifies rev`next
    ensures IsList(list, cur') && multiset(cur') == multiset(rev)
    ensures cur' == if j + 1 < |rev| then Moved(rev, j) else rev
    ensures Score(retval', found', missed) % 0x1_0000
         == (Score(retval, found, missed) + (4 + CachedBit(rev[j].info.data16))) % 0x1_0000
  {
    hide IsList, Moved, Score;
    found' := (found + 1) % 0x1_0000;
    ghost var data := this_find.info.data16;
    retval', cur' := UseFound(list, this_find, retval, rev, j);
    ScoreFound(retval, found, missed, CachedBit(data));
  }

  /** The nodes do not depend on how the cells are linked. */
  twostate lemma NodesKept(s: seq<ListHead>)
    requires forall i :: 0 <= i < |s| ==> s[i].info == old(s[i].info) && ItemOf(s[i].info) == old(ItemOf(s[i].info))
    ensures Nodes(s) == old(Nodes(s))
  {
    hide ItemOf;
    assert |Nodes(s)| == old(|Nodes(s)|);
  }

  /** The list has been reversed after a search in vain. */
  method TurnMissed(list: ListHead, info: Target, retval: u16, missed: u16, ghost found: u16, ghost cur: seq<ListHead>,
                    ghost ns: seq<Node>)
    returns (retval': u16, missed': u16)
    requires IsList(list, Reversed(cur)) && |cur| >= 2 && ns == Nodes(cur) && FirstHit(ns, info) == |ns|
    ensures Score(retval', found, missed') % 0x1_0000 == (Score(retval, found, missed) + Gain(ns, info)) % 0x1_0000
  {
    hide IsList, Reversed, FirstHit, Nodes, SearchOnce, Gain, Score;
    OnceMissed(ns, info);
    InReversed(cur, |cur| - 2);
    retval', missed' := CountMissed(list, retval, missed, found, Reversed(cur));
  }

  /** The cells after a search that hits the cell at position k, if there is one. */
  ghost function CellsAfter(cur: seq<ListHead>, k: nat): (r: seq<ListHead>)
    requires k <= |cur|
  {
    var rev := Reversed(cur);
    assert |multiset(rev)| == |rev|;
    if 0 < k < |cur| then Moved(rev, |cur| - 1 - k) else rev
  }

  lemma CellsAfterIs(cur: seq<ListHead>, k: nat)
    requires k <= |cur|
    ensures |Reversed(cur)| == |cur|
    ensures CellsAfter(cur, k) == if 0 < k < |cur| then Moved(Reversed(cur), |cur| - 1 - k) else Reversed(cur)
  {
    hide Reversed, Moved;
    assert |multiset(Reversed(cur))| == |Reversed(cur)|;
  }

  lemma CellsAfterKeep(cur: seq<ListHead>, k: nat)
    requires k <= |cur|
    ensures multiset(CellsAfter(cur, k)) == multiset(cur)
    ensures k == |cur| ==> CellsAfter(cur, k) == Reversed(cur)
  {
    hide Reversed, Moved, CellsAfter;
    CellsAfterIs(cur, k);
    var rev := Reversed(cur);
    if 0 < k < |cur| {
      MovedKeeps(rev, |cur| - 1 - k);
    }
  }

  lemma NodesAfter(cur: seq<ListHead>, info: Target, k: nat)
    requires |cur| >= 2 && FirstHit(Nodes(cur), info) == k <= |cur|
    ensures Nodes(CellsAfter(cur, k)) == SearchOnce(Nodes(cur), info)
  {
    hide Reversed, Moved, FirstHit, Nodes, SearchOnce, Gain;
    NodesReversed(cur);
    if k == |cur| {
      OnceMissed(Nodes(cur), info);
    } else {
      OnceFound(Nodes(cur), info, k);
      if k > 0 {
        NodesMoved(Reversed(cur), |cur| - 1 - k);
      }
    }
  }

  /** The list has been reversed after a search that hits the cell at position k. */
  method TurnFound(list: ListHead, this_find: ListHead, info: Target, retval: u16, found: u16, ghost missed: u16,
                   ghost cur: seq<ListHead>, ghost k: nat, ghost ns: seq<Node>)
    returns (retval': u16, found': u16)
    requires IsList(list, Reversed(cur)) && |cur| >= 2 && ns == Nodes(cur) && FirstHit(ns, info) == k < |ns|
    requires this_find == cur[k]
    modifies Reversed(cur)`next
    ensures IsList(list, CellsAfter(cur, k)) && multiset(CellsAfter(cur, k)) == multiset(cur)
    ensures Score(retval', found', missed) % 0x1_0000 == (Score(retval, found, missed) + Gain(ns, info)) % 0x1_0000
  {
    hide IsList, Reversed, Moved, FirstHit, Nodes, SearchOnce, Gain, Score;
    CellsAfterKeep(cur, k);
    OnceFound(ns, info, k);
    InReversed(cur, k);
    ghost var cur';
    retval', found', cur' := CountFound(list, this_find, retval, found, missed, Reversed(cur), |cur| - 1 - k);
  }

  /** One turn of the search loop: find, reverse, count and cache. */
  method SearchTurn(list: ListHead, info: Target, retval: u16, found: u16, missed: u16, ghost s: seq<ListHead>,
                    ghost cur: seq<ListHead>, ghost ns: seq<Node>)
    returns (list': ListHead, retval': u16, found': u16, missed': u16, ghost cur': seq<ListHead>)
    requires IsList(list, cur) && multiset(cur) == multiset(s) && |s| >= 2 && ns == Nodes(cur)
    modifies s`next
    ensures IsList(list', cur') && multiset(cur') == multiset(s)
    ensures |cur| == |s| && Nodes(cur') == SearchOnce(ns, info)
    ensures Score(retval', found', missed') % 0x1_0000 == (Score(retval, found, missed) + Gain(ns, info)) % 0x1_0000
  {
    hide IsList, Reversed, Matches, NoDup, Linked, Terminated, Items, FirstMatch, FirstHit, Nodes, SearchOnce, Gain, Score,
      CellsAfter, Hits;
    retval', found', missed' := retval, found, missed;
    SameCells(cur, s);
    ListIsTerminated(list, cur);
    var this_find, k := Find(list, info, cur);
    FoundIsFirstHit(cur, info, k);
    NodesAfter(cur, info, k);
    cur' := CellsAfter(cur, k);
    var reversed := Reverse(list, cur);
    SameCells(Reversed(cur), s);
    CellsAfterKeep(cur, k);
    HeadNotNull(reversed, Reversed(cur));
    list' := reversed;
    if this_find == null {
      retval', missed' := TurnMissed(list', info, retval, missed, found, cur, ns);
    } else {
      retval', found' := TurnFound(list', this_find, info, retval, found, missed, cur, k, ns);
    }
    SameCells(cur', s);
    NodesKept(cur');
  }

  lemma HeadNotNull(list: ListHead?, s: seq<ListHead>)
    requires IsList(list, s) && |s| > 0
    ensures list != null
  {
  }

  /** The index counts up with the searches, and stays as it is if it is negative. */
  lemma {:induction false} IdxCounts(idx: s16, n: nat)
    ensures idx < 0 ==> IdxAfter(idx, n) == idx
    ensures 0 <= idx && idx + n < 0x8000 ==> IdxAfter(idx, n) == idx + n
  {
    if n > 0 {
      IdxCounts(idx, n - 1);
    }
  }

  /**
   * One search, place by place: the list is reversed, and if something other than its first cell was found, the cell
   * in front of that one moves to the second place.
   */
  lemma SearchOnceAt(ns: seq<Node>, info: Target, i: nat)
    requires i < |ns|
    ensures |SearchOnce(ns, info)| == |ns|
    ensures var n, k := |ns|, FirstHit(ns, info);
            SearchOnce(ns, info)[i] ==
              if k == n || k == 0 || i == 0 || i > n - k then ns[n - 1 - i]
              else if i == 1 then ns[k - 1] else ns[n - i]
  {
    hide FirstHit, Reversed, Moved;
    var n, k := |ns|, FirstHit(ns, info);
    ReversedTwice(ns);
    ReversedAt(ns, i);
    if 0 < k < n {
      MovedAt(Reversed(ns), n - 1 - k, i);
      ReversedAt(ns, n - k);
      if i > 0 {
        ReversedAt(ns, i - 1);
      }
    }
  }

  /** The number of searches. */
  function Turns(find_num: s16): nat {
    if find_num > 0 then find_num else 0
  }

  lemma ScoreAdds(before: int, gain: int, after: int, rest: int)
    requires after % 0x1_0000 == (before + gain) % 0x1_0000
    ensures (after + rest) % 0x1_0000 == (before + (gain + rest)) % 0x1_0000
  {
  }

  lemma OneSearch(ns: seq<Node>, idx: s16, i: nat, n: nat)
    requires |ns| >= 2 && i < n
    ensures var info := Target(idx, i % 0x100);
            var next := SearchOnce(ns, info);
            |next| == |ns|
            && Searches(ns, idx, i, n).0 == Searches(next, NextIdx(idx), i + 1, n).0
            && Searches(ns, idx, i, n).1 == Gain(ns, info) + Searches(next, NextIdx(idx), i + 1, n).1
  {
    assert |SearchOnce(ns, Target(idx, i % 0x100))| == |multiset(ns)|;
  }

  lemma NoSearch(ns: seq<Node>, idx: s16, n: nat)
    requires |ns| >= 2
    ensures Searches(ns, idx, n, n) == (ns, 0)
  {
  }

  lemma OneFails(ns: seq<Node>, idx: s16, i: nat, n: nat)
    requires |ns| >= 2 && i < n && AllFail(ns, idx, i, n)
    ensures |Reversed(ns)| == |ns| && Reversed(Reversed(ns)) == ns && AllFail(Reversed(ns), NextIdx(idx), i + 1, n)
    ensures Searches(ns, idx, i, n).0 == Searches(Reversed(ns), NextIdx(idx), i + 1, n).0
  {
    hide Reversed, NextIdx, Gain, FirstHit, Searches, SearchOnce;
    var info := Target(idx, i % 0x100);
    FirstHitIs(ns, info, |ns|);
    OnceMissed(ns, info);
    OneSearch(ns, idx, i, n);
    ReversedTwice(ns);
    AllFailReversed(ns, NextIdx(idx), i + 1, n);
  }

  /** Each failing search reverses the list, so an even number of them leaves it as it was. */
  lemma {:induction false} FailingSearches(ns: seq<Node>, idx: s16, i: nat, n: nat)
    requires |ns| >= 2 && i <= n && AllFail(ns, idx, i, n)
    ensures Searches(ns, idx, i, n).0 == if (n - i) % 2 == 0 then ns else Reversed(ns)
    decreases n - i
  {
    hide Reversed, NextIdx, AllFail, Searches;
    if i == n {
      NoSearch(ns, idx, n);
    } else {
      OneFails(ns, idx, i, n);
      FailingSearches(Reversed(ns), NextIdx(idx), i + 1, n);
    }
  }

  /** "find <find_num> values in the list, and change the list each time" */
  method SearchLoop(list: ListHead, find_num: s16, finder_idx: s16, ghost s: seq<ListHead>)
    returns (list': ListHead, info: Target, retval: u16, ghost cur: seq<ListHead>)
    requires IsList(list, s) && |s| >= 2
    modifies s`next
    ensures IsList(list', cur) && multiset(cur) == multiset(s)
    ensures var r := Searches(old(Nodes(s)), finder_idx, 0, Turns(find_num));
            cur == Cells(r.0) && Nodes(cur) == r.0 && retval == r.1 % 0x1_0000
    ensures info.idx == IdxAfter(finder_idx, Turns(find_num))
    ensures find_num > 0 ==> info.data16 == (find_num - 1) % 0x100
  {
    hide IsList, Searches, Nodes, SearchOnce, Gain;
    // info.data16 is only set inside the loop.
    var unset: s16 := *;
    info := Target(finder_idx, unset);
    var found: u16, missed: u16, i: s16 := 0, 0, 0;
    list', retval, cur := list, 0, s;
    ghost var n, goal := Turns(find_num), Searches(Nodes(s), finder_idx, 0, Turns(find_num));
    while i < find_num
      invariant IsList(list', cur) && multiset(cur) == multiset(s) && |cur| == |s| && 0 <= i <= n
      invariant info.idx == IdxAfter(finder_idx, i) && (i > 0 ==> info.data16 == (i - 1) % 0x100)
      invariant Searches(Nodes(cur), info.idx, i, n).0 == goal.0
      invariant (Score(retval, found, missed) + Searches(Nodes(cur), info.idx, i, n).1) % 0x1_0000 == goal.1 % 0x1_0000
    {
      ghost var ns, score := Nodes(cur), Score(retval, found, missed);
      OneSearch(ns, info.idx, i, n);
      info := Target(info.idx, i % 0x100);
      list', retval, found, missed, cur := SearchTurn(list', info, retval, found, missed, s, cur, ns);
      ScoreAdds(score, Gain(ns, info), Score(retval, found, missed), Searches(Nodes(cur), NextIdx(info.idx), i + 1, n).1);
      if info.idx >= 0 {
        info := Target(ToS16(info.idx + 1), info.data16);
      }
      i := i + 1;
    }
    NoSearch(Nodes(cur), info.idx, n);
    CellsOfNodes(cur);
    retval := (retval + found * 4 - missed) % 0x1_0000;
  }
}
