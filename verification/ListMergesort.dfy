/** core_list_mergesort: the passes of the sort and its contract (core_list_join.c). */
module ListMergesort {
  import opened Words
  import opened ListCells
  import opened ListCompare
  import opened ListRuns
  import opened ListPasses
  import opened ListSort

  lemma SpliceSplit(list: ListHead?, tail: ListHead?, out: seq<ListHead>, p: ListHead?, cur: seq<ListHead>,
                    ps: seq<ListHead>, q: ListHead?, after: seq<ListHead>)
    requires Splice(list, tail, out, null, [], p, cur)
    requires cur == ps + after && |ps| > 0 && q == Head(after, null)
    ensures Splice(list, tail, out, p, ps, q, after)
  {
    assert out + [] + cur == out + ps + after;
    forall i | 0 <= i < |ps| - 1 ensures ps[i].next == ps[i + 1] {
      assert cur[i].next == cur[i + 1];
    }
    forall i | 0 <= i < |after| - 1 ensures after[i].next == after[i + 1] {
      assert cur[|ps| + i].next == cur[|ps| + i + 1];
    }
  }

  /** The part of the state of the middle loop that does not depend on the heap; held are the cells of the list. */
  ghost predicate PassData(insize: s32, cells: set<ListHead>, pos: Keys, keys: Keys, held: multiset<ListHead>,
                           done: seq<seq<ListHead>>, todo: seq<seq<ListHead>>) {
    && Pass(keys, pos, insize, done, todo)
    && multiset(Flat(done) + Flat(todo)) == held
    && cells <= pos.Keys && (forall c :: c in held ==> c in cells)
  }

  /** The state of the middle loop: done is linked from list to tail, todo is still linked from p. */
  ghost predicate PassInv(cmp: Comparator, res: CoreResults?, list: ListHead?, tail: ListHead?, p: ListHead?,
                          insize: s32, cells: set<ListHead>, infos: set<ListData>, pos: Keys, keys: Keys,
                          held: multiset<ListHead>, done: seq<seq<ListHead>>, todo: seq<seq<ListHead>>)
    reads cells`info, Flat(done)`next, Flat(todo)`next, keys.Keys`info, (set c | c in keys :: c.info)
  {
    && (cmp.CmpComplex? ==> res != null) && KeysAgree(cmp, res, keys)
    && Splice(list, tail, Flat(done), null, [], p, Flat(todo))
    && InfosIn(cells, infos) && PassData(insize, cells, pos, keys, held, done, todo)
  }

  /** The state when the two lists to merge have been found. */
  ghost function TwoRuns(keys: Keys, done: seq<seq<ListHead>>, todo: seq<seq<ListHead>>): Merge
    requires |todo| > 0
  {
    Merge(Flat(done), [], todo[0], Second(todo), Second(todo) + Flat(Others(todo)), keys)
  }

  /** The first two runs and what is behind them. */
  lemma TwoRunsData(keys: Keys, pos: Keys, insize: s32, psize: int, done: seq<seq<ListHead>>, todo: seq<seq<ListHead>>)
    requires Pass(keys, pos, insize, done, todo) && |todo| > 0
    requires psize == (if |Flat(todo)| < insize then |Flat(todo)| else insize)
    ensures var g := TwoRuns(keys, done, todo);
            && Flat(todo) == g.ps + g.after && |g.ps| == psize > 0 && Flat(todo)[psize..] == g.after
            && g.qs <= g.after && |g.qs| <= insize && (|g.qs| < insize ==> g.qs == g.after)
            && Merging(keys, pos, [], g.ps, g.qs)
  {
    FlatFirstTwo(todo);
    RunSizes(keys, pos, insize, todo);
    FirstTwoMerge(keys, pos, insize, todo);
  }

  lemma TwoRunsCounts(insize: s32, psize: int, cells: set<ListHead>, pos: Keys, keys: Keys, held: multiset<ListHead>,
                      done: seq<seq<ListHead>>, todo: seq<seq<ListHead>>)
    requires PassData(insize, cells, pos, keys, held, done, todo) && |todo| > 0
    requires psize == (if |Flat(todo)| < insize then |Flat(todo)| else insize)
    ensures Counts(psize, insize, cells, pos, TwoRuns(keys, done, todo))
  {
    var g := TwoRuns(keys, done, todo);
    TwoRunsData(keys, pos, insize, psize, done, todo);
    AllHeld(held, cells, Flat(done), g.ps, g.after);
  }

  lemma TwoRunsFound(cmp: Comparator, res: CoreResults?, list: ListHead?, tail: ListHead?, p: ListHead?, psize: s32,
                     q: ListHead?, insize: s32, cells: set<ListHead>, infos: set<ListData>, pos: Keys, keys: Keys,
                     held: multiset<ListHead>, done: seq<seq<ListHead>>, todo: seq<seq<ListHead>>)
    requires PassInv(cmp, res, list, tail, p, insize, cells, infos, pos, keys, held, done, todo)
    requires |todo| > 0
    requires psize == (if |Flat(todo)| < insize then |Flat(todo)| else insize)
    requires q == Head(Flat(todo)[psize..], null)
    ensures MergeInv(cmp, res, list, tail, p, psize, q, insize, cells, infos, pos, TwoRuns(keys, done, todo))
  {
    var g := TwoRuns(keys, done, todo);
    TwoRunsData(keys, pos, insize, psize, done, todo);
    TwoRunsCounts(insize, psize, cells, pos, keys, held, done, todo);
    SpliceSplit(list, tail, g.all, p, Flat(todo), g.ps, q, g.after);
  }

  lemma AllHeld(held: multiset<ListHead>, cells: set<ListHead>, a: seq<ListHead>, b: seq<ListHead>, c: seq<ListHead>)
    requires multiset(a + (b + c)) == held && (forall x :: x in held ==> x in cells)
    ensures AllIn(a, cells) && AllIn(b, cells) && AllIn(c, cells)
  {
    var all := a + (b + c);
    forall x | x in all ensures x in cells {
      assert x in multiset(all);
    }
    forall i | 0 <= i < |a| ensures a[i] in cells { assert a[i] == all[i]; }
    forall i | 0 <= i < |b| ensures b[i] in cells { assert b[i] == all[|a| + i]; }
    forall i | 0 <= i < |c| ensures c[i] in cells { assert c[i] == all[|a| + |b| + i]; }
  }

  /** The multiset of a pass after a merge. */
  lemma HeldStep(done: seq<seq<ListHead>>, todo: seq<seq<ListHead>>, run: seq<ListHead>)
    requires |todo| > 0 && multiset(run) == multiset(todo[0] + Second(todo))
    ensures multiset(Flat(done + [run]) + Flat(Others(todo))) == multiset(Flat(done) + Flat(todo))
    ensures Flat(done + [run]) == Flat(done) + run
  {
    FlatAppend(done, run);
    FlatFirstTwo(todo);
  }

  lemma PassHeads(cmp: Comparator, res: CoreResults?, list: ListHead?, tail: ListHead?, p: ListHead?, insize: s32,
                  cells: set<ListHead>, infos: set<ListData>, pos: Keys, keys: Keys, held: multiset<ListHead>,
                  done: seq<seq<ListHead>>, todo: seq<seq<ListHead>>)
    requires PassInv(cmp, res, list, tail, p, insize, cells, infos, pos, keys, held, done, todo)
    requires |todo| > 0
    ensures insize > 0 && |Flat(todo)| > 0 && Terminated(Flat(todo)) && p == Flat(todo)[0]
  {
    RunSizes(keys, pos, insize, todo);
  }

  /** "there exists a merge to be done": find the two lists to merge. */
  method FindRuns(cmp: Comparator, res: CoreResults?, list: ListHead?, tail: ListHead?, p: ListHead, insize: s32,
                  ghost cells: set<ListHead>, ghost infos: set<ListData>, ghost pos: Keys, ghost keys: Keys,
                  ghost held: multiset<ListHead>, ghost done: seq<seq<ListHead>>, ghost todo: seq<seq<ListHead>>)
    returns (q: ListHead?, psize: s32)
    requires PassInv(cmp, res, list, tail, p, insize, cells, infos, pos, keys, held, done, todo)
    requires |todo| > 0
    ensures MergeInv(cmp, res, list, tail, p, psize, q, insize, cells, infos, pos, TwoRuns(keys, done, todo))
  {
    PassHeads(cmp, res, list, tail, p, insize, cells, infos, pos, keys, held, done, todo);
    hide PassInv, MergeInv, Flat, NoDup, TwoRuns;
    ghost var cur := Flat(todo);
    q, psize := p, 0;
    for i := 0 to insize
      invariant psize == i < |cur| && q == cur[i]
    {
      psize := psize + 1;
      assert i + 1 < |cur| ==> cur[i].next == cur[i + 1];
      q := q.next;
      if q == null {
        break;
      }
    }
    TwoRunsFound(cmp, res, list, tail, p, psize, q, insize, cells, infos, pos, keys, held, done, todo);
  }

  lemma PassTurnEnds(cmp: Comparator, res: CoreResults?, list: ListHead?, tail: ListHead?, p: ListHead?, insize: s32,
                     cells: set<ListHead>, infos: set<ListData>, pos: Keys, keys: Keys, keys': Keys,
                     held: multiset<ListHead>, done: seq<seq<ListHead>>, todo: seq<seq<ListHead>>, run: seq<ListHead>)
    requires (cmp.CmpComplex? ==> res != null) && KeysAgree(cmp, res, keys') && Extends(keys, keys')
    requires PassData(insize, cells, pos, keys, held, done, todo) && |todo| > 0 && InfosIn(cells, infos)
    requires Splice(list, tail, Flat(done) + run, null, [], p, Flat(Others(todo)))
    requires multiset(run) == multiset(todo[0] + Second(todo)) && Ordered(keys', pos, run)
    ensures PassInv(cmp, res, list, tail, p, insize, cells, infos, pos, keys', held, done + [run], Others(todo))
  {
    hide KeysAgree, Pass, Splice, Flat, InfosIn, Ordered;
    HeldStep(done, todo, run);
    PassStep(keys, keys', pos, insize, done, todo, run);
  }

  /** One turn of the middle loop: `nmerges++`, find the two lists and merge them. */
  method PassTurn(cmp: Comparator, res: CoreResults?, list: ListHead?, tail: ListHead?, p: ListHead, insize: s32,
                  ghost cells: set<ListHead>, ghost infos: set<ListData>, ghost pos: Keys, ghost keys: Keys,
                  ghost held: multiset<ListHead>, ghost done: seq<seq<ListHead>>, ghost todo: seq<seq<ListHead>>)
    returns (list': ListHead?, tail': ListHead?, p': ListHead?, ghost run: seq<ListHead>, ghost keys': Keys)
    requires PassInv(cmp, res, list, tail, p, insize, cells, infos, pos, keys, held, done, todo)
    requires |todo| > 0
    modifies cells`next, infos`data16
    modifies ResultsOf(res)`crc, ResultsOf(res)`crcstate, ResultsOf(res)`crcmatrix
    ensures PassInv(cmp, res, list', tail', p', insize, cells, infos, pos, keys', held, done + [run], Others(todo))
    ensures Extends(keys, keys') && AllKept(cmp, res, infos)
  {
    hide MergeInv, Splice, KeysAgree, PassData, Ordered, Flat, InfosIn;
    var q, psize := FindRuns(cmp, res, list, tail, p, insize, cells, infos, pos, keys, held, done, todo);
    list', tail', p', run, keys' := MergeRuns(cmp, res, list, tail, p, psize, q, insize, cells, infos, pos,
                                              TwoRuns(keys, done, todo), Flat(Others(todo)));
    PassTurnEnds(cmp, res, list', tail', p', insize, cells, infos, pos, keys, keys', held, done, todo, run);
  }

  lemma PassStarts(s: seq<seq<ListHead>>, w: s32, cells: set<ListHead>, pos: Keys, keys: Keys)
    requires w > 0 && Runs(keys, pos, s, w) && cells <= pos.Keys && (forall c :: c in Flat(s) ==> c in cells)
    ensures PassData(w, cells, pos, keys, multiset(Flat(s)), [], s)
  {
    hide Runs, Earlier;
    NoRuns(keys, pos, 2 * w);
    assert Flat<ListHead>([]) + Flat(s) == Flat(s);
    hide Flat;
  }

  lemma NoRuns(keys: Keys, pos: Keys, w: int)
    ensures Runs(keys, pos, [], w)
  {
  }

  lemma SpliceStarts(list: ListHead?, cur: seq<ListHead>)
    requires IsList(list, cur)
    ensures Splice(null, null, Flat([]), null, [], list, cur)
  {
    assert Flat<ListHead>([]) + [] + cur == cur;
  }

  /** When nothing is left to do, the output only lacks its terminating NULL. */
  lemma PassEnds(cmp: Comparator, res: CoreResults?, list: ListHead?, tail: ListHead?, insize: s32,
                 cells: set<ListHead>, infos: set<ListData>, pos: Keys, keys: Keys, held: multiset<ListHead>,
                 done: seq<seq<ListHead>>)
    requires PassInv(cmp, res, list, tail, null, insize, cells, infos, pos, keys, held, done, [])
    requires |done| > 0
    ensures var out := Flat(done);
            && |out| > 0 && NoDup(out) && list == out[0] && tail == out[|out| - 1] && Linked(out) && multiset(out) == held
    ensures Runs(keys, pos, done, 2 * insize) && KeysAgree(cmp, res, keys) && tail in cells
  {
    var out := Flat(done);
    assert done[0] != [];
    assert out + [] + Flat([]) == out;
    assert out + Flat([]) == out;
    assert tail in multiset(out);
  }

  /** `tail->next = NULL;` turns the linked output into a list. */
  method Terminate(list: ListHead?, tail: ListHead, ghost out: seq<ListHead>)
    requires |out| > 0 && NoDup(out) && list == out[0] && tail == out[|out| - 1] && Linked(out)
    modifies tail`next
    ensures IsList(list, out)
  {
    NoDupIndices(out);
    tail.next := null;
  }

  lemma MoreToDo(cmp: Comparator, res: CoreResults?, list: ListHead?, tail: ListHead?, p: ListHead?, insize: s32,
                 cells: set<ListHead>, infos: set<ListData>, pos: Keys, keys: Keys, held: multiset<ListHead>,
                 done: seq<seq<ListHead>>, todo: seq<seq<ListHead>>)
    requires PassInv(cmp, res, list, tail, p, insize, cells, infos, pos, keys, held, done, todo)
    ensures p != null <==> |todo| > 0
  {
    if |todo| > 0 {
      assert todo[0] != [];
    }
  }

  /** The middle loop: every two runs of insize cells become one run of the output. */
  method PassLoop(cmp: Comparator, res: CoreResults?, list: ListHead, insize: s32, ghost cells: set<ListHead>,
                  ghost infos: set<ListData>, ghost pos: Keys, ghost keys: Keys, ghost held: multiset<ListHead>,
                  ghost runs: seq<seq<ListHead>>)
    returns (list': ListHead?, tail: ListHead?, nmerges: int, ghost done: seq<seq<ListHead>>, ghost keys': Keys)
    requires PassInv(cmp, res, null, null, list, insize, cells, infos, pos, keys, held, [], runs)
    modifies cells`next, infos`data16
    modifies ResultsOf(res)`crc, ResultsOf(res)`crcstate, ResultsOf(res)`crcmatrix
    ensures PassInv(cmp, res, list', tail, null, insize, cells, infos, pos, keys', held, done, [])
    ensures nmerges == |done| && (2 * nmerges == |runs| || 2 * nmerges == |runs| + 1)
    ensures AllKept(cmp, res, infos)
  {
    ghost var todo := runs;
    var p: ListHead? := list;
    list', tail, nmerges, keys', done := null, null, 0, keys, [];
    hide PassInv;
    while p != null
      invariant PassInv(cmp, res, list', tail, p, insize, cells, infos, pos, keys', held, done, todo)
      invariant nmerges == |done|
      invariant 2 * nmerges + |todo| == |runs| || (|todo| == 0 && 2 * nmerges == |runs| + 1)
      invariant AllKept(cmp, res, infos)
      decreases |todo|
    {
      ghost var run;
      MoreToDo(cmp, res, list', tail, p, insize, cells, infos, pos, keys', held, done, todo);
      list', tail, p, run, keys' := PassTurn(cmp, res, list', tail, p, insize, cells, infos, pos, keys', held, done, todo);
      done, todo := done + [run], Others(todo);
      nmerges := nmerges + 1;
    }
    MoreToDo(cmp, res, list', tail, p, insize, cells, infos, pos, keys', held, done, todo);
  }

  /** One pass over the list, from `p = list` to `tail->next = NULL`. */
  method MergePass(cmp: Comparator, res: CoreResults?, list: ListHead, insize: s32, ghost cells: set<ListHead>,
                   ghost infos: set<ListData>, ghost pos: Keys, ghost keys: Keys, ghost runs: seq<seq<ListHead>>)
    returns (list': ListHead?, nmerges: int, ghost runs': seq<seq<ListHead>>, ghost keys': Keys)
    requires (cmp.CmpComplex? ==> res != null) && KeysAgree(cmp, res, keys) && InfosIn(cells, infos)
    requires insize > 0 && PassData(insize, cells, pos, keys, multiset(Flat(runs)), [], runs)
    requires IsList(list, Flat(runs)) && |runs| > 0
    modifies cells`next, infos`data16
    modifies ResultsOf(res)`crc, ResultsOf(res)`crcstate, ResultsOf(res)`crcmatrix
    ensures nmerges == |runs'| && (2 * nmerges == |runs| || 2 * nmerges == |runs| + 1)
    ensures IsList(list', Flat(runs')) && Runs(keys', pos, runs', 2 * insize)
    ensures multiset(Flat(runs')) == multiset(Flat(runs))
    ensures KeysAgree(cmp, res, keys') && AllKept(cmp, res, infos)
  {
    hide PassData, Splice, KeysAgree, InfosIn, Flat, IsList, Runs, NoDup, Linked;
    ghost var held := multiset(Flat(runs));
    SpliceStarts(list, Flat(runs));
    var tail;
    list', tail, nmerges, runs', keys' := PassLoop(cmp, res, list, insize, cells, infos, pos, keys, held, runs);
    PassEnds(cmp, res, list', tail, insize, cells, infos, pos, keys', held, runs');
    Terminate(list', tail, Flat(runs'));
  }

  /** r is sorted by key, and cells with equal keys stand in the order they have in s. */
  ghost predicate SortedStable(cmp: Comparator, s: seq<ListHead>, r: seq<ListHead>)
    reads r`info, set c | c in r :: c.info
  {
    forall i, j :: 0 <= i < j < |r| ==>
      && r[i] in s && r[j] in s
      && (Key(cmp, r[i].info) < Key(cmp, r[j].info)
          || (Key(cmp, r[i].info) == Key(cmp, r[j].info) && Rank(s, r[i]) < Rank(s, r[j])))
  }

  /**
   * For a comparator that only reads, in its own terms: of two cells of the result the first may stand first, and if
   * they could also stand the other way round they have kept the order they have in s.
   */
  lemma SortedByOrder(order: Order, s: seq<ListHead>, r: seq<ListHead>, i: nat, j: nat)
    requires SortedStable(CmpBy(order), s, r) && i < j < |r|
    ensures r[i] in s && r[j] in s && order(ItemOf(r[i].info), ItemOf(r[j].info)) <= 0
    ensures order(ItemOf(r[j].info), ItemOf(r[i].info)) <= 0 ==> Rank(s, r[i]) < Rank(s, r[j])
  {
    OrderIsRank(order, ItemOf(r[i].info), ItemOf(r[j].info));
    OrderIsRank(order, ItemOf(r[j].info), ItemOf(r[i].info));
  }

  /** The keys of an ordered run are the present keys of its cells. */
  lemma OrderedIsSorted(cmp: Comparator, res: CoreResults?, s: seq<ListHead>, r: seq<ListHead>, keys: Keys)
    requires Ordered(keys, Ranks(s), r) && KeysAgree(cmp, res, keys) && multiset(r) == multiset(s)
    ensures SortedStable(cmp, s, r)
    ensures |s| >= 2 ==> forall c :: c in s ==> Settled(cmp, res, c.info)
  {
    forall i, j | 0 <= i < j < |r|
      ensures r[i] in keys && r[j] in keys && r[i] in s && r[j] in s
    {
      assert Before(keys, Ranks(s), r[i], r[j]);
    }
    assert |r| == |multiset(r)| == |s|;
    if |r| >= 2 {
      forall c | c in s
        ensures c in keys
      {
        assert c in multiset(r);
        var i :| 0 <= i < |r| && r[i] == c;
        assert if i == 0 then Before(keys, Ranks(s), r[0], r[1]) else Before(keys, Ranks(s), r[0], r[i]);
      }
    }
  }

  /** A list of one run is that run. */
  lemma OneRun(keys: Keys, pos: Keys, runs: seq<seq<ListHead>>, w: int)
    requires |runs| == 1 && Runs(keys, pos, runs, w)
    ensures Ordered(keys, pos, Flat(runs))
  {
    assert Flat(runs) == runs[0] + Flat(runs[1..]) == runs[0];
  }

  /** With more than one run left, the run length is still below the length of the list. */
  lemma RunsShorterThanList(keys: Keys, pos: Keys, runs: seq<seq<ListHead>>, w: int)
    requires |runs| >= 2 && Runs(keys, pos, runs, w)
    ensures w < |Flat(runs)|
  {
    FlatFirstTwo(runs);
  }

  /** The state of the outer loop. */
  ghost predicate SortInv(cmp: Comparator, res: CoreResults?, s: seq<ListHead>, list: ListHead?, insize: s32,
                          runs: seq<seq<ListHead>>, keys: Keys)
    reads s`info, Flat(runs)`next, keys.Keys`info, (set c | c in keys :: c.info)
  {
    && (cmp.CmpComplex? ==> res != null)
    && IsList(list, Flat(runs)) && list != null && multiset(Flat(runs)) == multiset(s)
    && insize > 0 && |runs| > 0 && (insize == 1 || insize < |s|)
    && Runs(keys, Ranks(s), runs, insize) && KeysAgree(cmp, res, keys)
  }

  lemma SortStarts(cmp: Comparator, res: CoreResults?, s: seq<ListHead>, list: ListHead)
    requires (cmp.CmpComplex? ==> res != null) && IsList(list, s)
    ensures SortInv(cmp, res, s, list, 1, Singles(s), map[])
  {
    SinglesFlat(s);
    SinglesAreRuns(s);
  }

  /** One turn of the outer loop: a pass and, if more than one run is left, the doubling of insize. */
  method SortTurn(cmp: Comparator, res: CoreResults?, list: ListHead, insize: s32, ghost s: seq<ListHead>,
                  ghost runs: seq<seq<ListHead>>, ghost keys: Keys)
    returns (finished: bool, list': ListHead?, insize': s32, ghost runs': seq<seq<ListHead>>, ghost keys': Keys)
    requires SortInv(cmp, res, s, list, insize, runs, keys) && |s| <= 0x8000_0000
    modifies s`next, Infos(s)`data16
    modifies ResultsOf(res)`crc, ResultsOf(res)`crcstate, ResultsOf(res)`crcmatrix
    ensures list' != null
    ensures finished ==>
              && IsList(list', Flat(runs')) && multiset(Flat(runs')) == multiset(s)
              && Ordered(keys', Ranks(s), Flat(runs')) && KeysAgree(cmp, res, keys')
    ensures !finished ==> SortInv(cmp, res, s, list', insize', runs', keys') && |runs'| < |runs|
    ensures AllKept(cmp, res, Infos(s))
  {
    hide SortInv, PassData, IsList, Runs, KeysAgree, Ordered, Flat, InfosIn, Ranks;
    ghost var cells, pos := CellSet(s), Ranks(s);
    TurnStarts(cmp, res, s, list, insize, runs, keys);
    var nmerges;
    list', nmerges, runs', keys' := MergePass(cmp, res, list, insize, cells, Infos(s), pos, keys, runs);
    ListNotNull(list', runs', s);
    finished, insize' := nmerges <= 1, insize;
    if finished {
      OneRun(keys', pos, runs', 2 * insize);
    } else {
      TurnEnds(cmp, res, s, list', insize, runs', keys');
      insize' := insize * 2;
    }
  }

  lemma TurnStarts(cmp: Comparator, res: CoreResults?, s: seq<ListHead>, list: ListHead?, insize: s32,
                   runs: seq<seq<ListHead>>, keys: Keys)
    requires SortInv(cmp, res, s, list, insize, runs, keys)
    ensures (cmp.CmpComplex? ==> res != null) && KeysAgree(cmp, res, keys) && InfosIn(CellSet(s), Infos(s))
    ensures insize > 0 && PassData(insize, CellSet(s), Ranks(s), keys, multiset(Flat(runs)), [], runs)
    ensures IsList(list, Flat(runs)) && |runs| > 0 && |s| > 0 && multiset(Flat(runs)) == multiset(s)
    ensures insize == 1 || insize < |s|
  {
    forall c | c in Flat(runs) ensures c in s {
      assert c in multiset(Flat(runs));
    }
    hide KeysAgree, Runs;
    assert |s| == |multiset(s)| == |Flat(runs)|;
    PassStarts(runs, insize, CellSet(s), Ranks(s), keys);
  }

  lemma TurnEnds(cmp: Comparator, res: CoreResults?, s: seq<ListHead>, list: ListHead?, insize: s32,
                 runs: seq<seq<ListHead>>, keys: Keys)
    requires (cmp.CmpComplex? ==> res != null) && KeysAgree(cmp, res, keys) && insize > 0
    requires IsList(list, Flat(runs)) && list != null && |runs| >= 2 && multiset(Flat(runs)) == multiset(s)
    requires Runs(keys, Ranks(s), runs, 2 * insize) && |s| <= 0x8000_0000
    ensures 2 * insize < |s| && SortInv(cmp, res, s, list, 2 * insize, runs, keys)
  {
    RunsShorterThanList(keys, Ranks(s), runs, 2 * insize);
    assert |Flat(runs)| == |multiset(Flat(runs))|;
    hide KeysAgree, Runs, IsList;
  }

  lemma ListNotNull(list: ListHead?, runs: seq<seq<ListHead>>, s: seq<ListHead>)
    requires IsList(list, Flat(runs)) && multiset(Flat(runs)) == multiset(s) && |s| > 0
    ensures list != null
  {
    assert |Flat(runs)| == |multiset(s)|;
  }

  /**
   * Sorts in place. The result has the same cells as the input, each with its own info pointer, in key order
   * and stable; a comparator has seen every cell if there are at least two.
   * insize is doubled only while it is below the length of the list, so up to 2^31 cells it stays inside its 32 bits.
   */
  method Mergesort(list: ListHead, cmp: Comparator, res: CoreResults?, ghost s: seq<ListHead>)
    returns (list': ListHead, ghost r: seq<ListHead>)
    requires (cmp.CmpComplex? ==> res != null) && IsList(list, s) && |s| <= 0x8000_0000
    modifies s`next, Infos(s)`data16
    modifies ResultsOf(res)`crc, ResultsOf(res)`crcstate, ResultsOf(res)`crcmatrix
    ensures IsList(list', r) && multiset(r) == multiset(s)
    ensures SortedStable(cmp, s, r)
    ensures |s| >= 2 ==> forall c :: c in s ==> Settled(cmp, res, c.info)
    ensures AllKept(cmp, res, Infos(s))
  {
    hide SortInv, Flat, IsList, KeysAgree, Ordered, SortedStable;
    var head: ListHead?, insize: s32, finished := list, 1, false;
    ghost var runs, keys: Keys, infos := Singles(s), map[], Infos(s);
    SortStarts(cmp, res, s, list);
    while true
      invariant head != null && SortInv(cmp, res, s, head, insize, runs, keys)
      invariant Infos(s) == infos && AllKept(cmp, res, infos)
      decreases |runs|
    {
      finished, head, insize, runs, keys := SortTurn(cmp, res, head, insize, s, runs, keys);
      if finished {
        r, list' := Flat(runs), head;
        OrderedIsSorted(cmp, res, s, r, keys);
        return;
      }
    }
  }
}
