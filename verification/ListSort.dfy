/** core_list_mergesort: the in-place, bottom-up merge sort (core_list_join.c). */
module ListSort {
  import opened Words
  import opened ListCells
  import opened ListCompare
  import opened ListRuns

  function Opt(c: ListHead?): set<ListHead> {
    if c == null then {} else {c}
  }

  ghost function CellSet(s: seq<ListHead>): set<ListHead> {
    set c | c in s
  }

  ghost function Infos(s: seq<ListHead>): set<ListData>
    reads s`info
  {
    set c | c in s :: c.info
  }

  /** keys holds the present key of cells the comparator has settled. */
  ghost predicate KeysAgree(cmp: Comparator, res: CoreResults?, keys: Keys)
    reads keys.Keys`info, (set c | c in keys :: c.info)
  {
    forall c :: c in keys ==> Settled(cmp, res, c.info) && keys[c] == Key(cmp, c.info)
  }

  /**
   * Memory during a merge: out is linked from list to tail, ps are the cells left at p,
   * after the cells from q to the end of the old list.
   */
  ghost predicate Splice(list: ListHead?, tail: ListHead?, out: seq<ListHead>, p: ListHead?, ps: seq<ListHead>,
                         q: ListHead?, after: seq<ListHead>)
    reads out`next, ps`next, after`next
  {
    && NoDup(out + ps + after)
    && list == Head(out, null) && tail == (if |out| == 0 then null else out[|out| - 1]) && Linked(out)
    && (|ps| > 0 ==> p == ps[0]) && Linked(ps)
    && q == Head(after, null) && Terminated(after)
  }

  lemma TailIsApart(out: seq<ListHead>, rest: seq<ListHead>)
    requires |out| > 0 && NoDup(out + rest)
    ensures out[|out| - 1] !in out[..|out| - 1] && out[|out| - 1] !in rest
  {
    NoDupIndices(out + rest);
    var n := |out| - 1;
    assert out[n] == (out + rest)[n];
    forall i | 0 <= i < n ensures out[i] != out[n] { assert (out + rest)[i] == out[i]; }
    forall i | 0 <= i < |rest| ensures rest[i] != out[n] { assert (out + rest)[|out| + i] == rest[i]; }
  }

  /** `e = p; p = p->next; psize--;` and the link of e behind tail. */
  method TakeP(list: ListHead?, tail: ListHead?, ghost out: seq<ListHead>, p: ListHead, ghost ps: seq<ListHead>,
               q: ListHead?, ghost after: seq<ListHead>)
    returns (list': ListHead?, tail': ListHead?, p': ListHead?)
    requires |ps| > 0 && Splice(list, tail, out, p, ps, q, after)
    modifies Opt(tail)`next
    ensures Splice(list', tail', out + [p], p', ps[1..], q, after)
  {
    var e := p;
    p' := p.next;
    assert (out + [p]) + ps[1..] + after == out + ps + after;
    assert out + ps + after == out + (ps + after);
    if tail != null {
      TailIsApart(out, ps + after);
      tail.next := e;
      list' := list;
    } else {
      list' := e;
    }
    tail' := e;
  }

  /** `e = q; q = q->next; qsize--;` and the link of e behind tail. */
  method TakeQ(list: ListHead?, tail: ListHead?, ghost out: seq<ListHead>, p: ListHead?, ghost ps: seq<ListHead>,
               q: ListHead, ghost after: seq<ListHead>)
    returns (list': ListHead?, tail': ListHead?, q': ListHead?)
    requires |after| > 0 && Splice(list, tail, out, p, ps, q, after)
    modifies Opt(tail)`next
    ensures Splice(list', tail', out + [q], p, ps, q', after[1..])
  {
    var e := q;
    q' := q.next;
    MoveFirst(out, ps, after);
    assert out + ps + after == out + (ps + after);
    if tail != null {
      TailIsApart(out, ps + after);
      tail.next := e;
      list' := list;
    } else {
      list' := e;
    }
    tail' := e;
  }

  /** `cmp(p->info, q->info, res)`, recording the two keys it settles. */
  method CompareCells(cmp: Comparator, res: CoreResults?, p: ListHead, q: ListHead, ghost keys: Keys)
    returns (r: int, ghost keys': Keys)
    requires (cmp.CmpComplex? ==> res != null) && KeysAgree(cmp, res, keys)
    modifies p.info`data16, q.info`data16, ResultsOf(res)`crc, ResultsOf(res)`crcstate, ResultsOf(res)`crcmatrix
    ensures KeysAgree(cmp, res, keys') && Extends(keys, keys')
    ensures p in keys' && q in keys' && (r <= 0 <==> keys'[p] <= keys'[q])
    ensures DataKept(cmp, res, p.info) && DataKept(cmp, res, q.info)
  {
    hide Key, Settled, DataKept, ItemOf;
    r := Compare(cmp, p.info, q.info, res);
    keys' := keys[p := Key(cmp, p.info)][q := Key(cmp, q.info)];
  }

  twostate predicate AllKept(cmp: Comparator, res: CoreResults?, infos: set<ListData>)
    reads infos
  {
    forall d :: d in infos ==> DataKept(cmp, res, d)
  }

  ghost predicate AllIn(s: seq<ListHead>, cells: set<ListHead>) {
    forall i :: 0 <= i < |s| ==> s[i] in cells
  }

  /** The data items of cells are among infos. */
  ghost predicate InfosIn(cells: set<ListHead>, infos: set<ListData>)
    reads cells`info
  {
    forall c :: c in cells ==> c.info in infos
  }

  /** "decide whether next element of merge comes from p or q" */
  method Choose(cmp: Comparator, res: CoreResults?, p: ListHead?, psize: s32, q: ListHead?, qsize: s32,
                ghost infos: set<ListData>, ghost run: seq<ListHead>, ghost ps: seq<ListHead>, ghost qs: seq<ListHead>,
                ghost keys: Keys, ghost pos: Keys)
    returns (fromP: bool, ghost keys': Keys)
    requires (cmp.CmpComplex? ==> res != null) && KeysAgree(cmp, res, keys)
    requires (psize > 0 <==> |ps| > 0) && (qsize > 0 && q != null <==> |qs| > 0) && |ps| + |qs| > 0 && qsize >= 0
    requires (|ps| > 0 ==> p == ps[0] && p.info in infos && p in pos)
    requires (|qs| > 0 ==> q == qs[0] && q.info in infos && q in pos)
    requires psize >= 0 && Merging(keys, pos, run, ps, qs)
    modifies infos`data16
    modifies ResultsOf(res)`crc, ResultsOf(res)`crcstate, ResultsOf(res)`crcmatrix
    ensures KeysAgree(cmp, res, keys') && Extends(keys, keys')
    ensures if fromP then |ps| > 0 && Merging(keys', pos, run + [ps[0]], ps[1..], qs)
            else |qs| > 0 && Merging(keys', pos, run + [qs[0]], ps, qs[1..])
    ensures AllKept(cmp, res, infos)
  {
    keys' := keys;
    if psize == 0 {
      fromP := false;
    } else if qsize == 0 || q == null {
      fromP := true;
    } else {
      var r;
      r, keys' := CompareCells(cmp, res, p, q, keys);
      fromP := r <= 0;
      MergingExtends(keys, keys', pos, run, ps, qs);
      assert pos[p] < pos[q];
    }
    if fromP {
      MergingTakeP(keys', pos, run, ps, qs);
    } else {
      MergingTakeQ(keys', pos, run, ps, qs);
    }
  }

  /** psize and qsize describe what is left of the runs, and every cell concerned is in cells. */
  ghost predicate Counts(psize: s32, qsize: s32, cells: set<ListHead>, pos: Keys, g: Merge) {
    && cells <= pos.Keys && AllIn(g.all, cells) && AllIn(g.ps, cells) && AllIn(g.qs, cells)
    && psize == |g.ps| && g.qs <= g.after && |g.qs| <= qsize && (|g.qs| < qsize ==> g.qs == g.after)
  }

  lemma CountsTakeP(psize: s32, qsize: s32, cells: set<ListHead>, pos: Keys, g: Merge, keys: Keys)
    requires Counts(psize, qsize, cells, pos, g) && |g.ps| > 0
    ensures Counts(psize - 1, qsize, cells, pos, TakenP(g, keys))
  {
  }

  lemma CountsTakeQ(psize: s32, qsize: s32, cells: set<ListHead>, pos: Keys, g: Merge, keys: Keys)
    requires Counts(psize, qsize, cells, pos, g) && |g.qs| > 0
    ensures qsize > 0 && Counts(psize, qsize - 1, cells, pos, TakenQ(g, keys))
  {
  }

  /** The state of the inner loop. */
  ghost predicate MergeInv(cmp: Comparator, res: CoreResults?, list: ListHead?, tail: ListHead?, p: ListHead?,
                           psize: s32, q: ListHead?, qsize: s32, cells: set<ListHead>, infos: set<ListData>,
                           pos: Keys, g: Merge)
    reads cells`info, g.all`next, g.ps`next, g.after`next, g.keys.Keys`info, (set c | c in g.keys :: c.info)
  {
    && (cmp.CmpComplex? ==> res != null) && KeysAgree(cmp, res, g.keys)
    && Splice(list, tail, g.all, p, g.ps, q, g.after)
    && InfosIn(cells, infos) && Counts(psize, qsize, cells, pos, g)
    && Merging(g.keys, pos, g.run, g.ps, g.qs)
  }

  /** What the tests of the inner loop say about the runs. */
  lemma MergeHeads(cmp: Comparator, res: CoreResults?, list: ListHead?, tail: ListHead?, p: ListHead?, psize: s32,
                   q: ListHead?, qsize: s32, cells: set<ListHead>, infos: set<ListData>, pos: Keys, g: Merge)
    requires MergeInv(cmp, res, list, tail, p, psize, q, qsize, cells, infos, pos, g)
    ensures psize == |g.ps| && qsize >= 0
    ensures qsize > 0 && q != null <==> |g.qs| > 0
    ensures |g.ps| > 0 ==> p == g.ps[0] && p.info in infos && p in pos
    ensures |g.qs| > 0 ==> |g.after| > 0 && q == g.qs[0] == g.after[0] && q.info in infos && q in pos
    ensures tail != null ==> tail in cells
    ensures (cmp.CmpComplex? ==> res != null) && KeysAgree(cmp, res, g.keys) && InfosIn(cells, infos)
    ensures Splice(list, tail, g.all, p, g.ps, q, g.after)
    ensures Counts(psize, qsize, cells, pos, g) && Merging(g.keys, pos, g.run, g.ps, g.qs)
  {
    hide KeysAgree, Merging;
  }

  /** One turn of the inner loop that takes from p. */
  method StepP(cmp: Comparator, res: CoreResults?, list: ListHead?, tail: ListHead?, p: ListHead, psize: s32,
               q: ListHead?, qsize: s32, ghost cells: set<ListHead>, ghost infos: set<ListData>, ghost pos: Keys,
               ghost g: Merge, ghost keys: Keys)
    returns (list': ListHead?, tail': ListHead?, p': ListHead?, psize': s32)
    requires (cmp.CmpComplex? ==> res != null) && KeysAgree(cmp, res, keys) && InfosIn(cells, infos)
    requires Splice(list, tail, g.all, p, g.ps, q, g.after) && (tail != null ==> tail in cells)
    requires Counts(psize, qsize, cells, pos, g)
    requires |g.ps| > 0 && p == g.ps[0] && Merging(keys, pos, g.run + [g.ps[0]], g.ps[1..], g.qs)
    modifies cells`next
    ensures MergeInv(cmp, res, list', tail', p', psize', q, qsize, cells, infos, pos, TakenP(g, keys))
  {
    CountsTakeP(psize, qsize, cells, pos, g, keys);
    hide Splice, KeysAgree, Merging, Counts;
    list', tail', p' := TakeP(list, tail, g.all, p, g.ps, q, g.after);
    psize' := psize - 1;
  }

  /** One turn of the inner loop that takes from q. */
  method StepQ(cmp: Comparator, res: CoreResults?, list: ListHead?, tail: ListHead?, p: ListHead?, psize: s32,
               q: ListHead, qsize: s32, ghost cells: set<ListHead>, ghost infos: set<ListData>, ghost pos: Keys,
               ghost g: Merge, ghost keys: Keys)
    returns (list': ListHead?, tail': ListHead?, q': ListHead?, qsize': s32)
    requires (cmp.CmpComplex? ==> res != null) && KeysAgree(cmp, res, keys) && InfosIn(cells, infos)
    requires Splice(list, tail, g.all, p, g.ps, q, g.after) && (tail != null ==> tail in cells)
    requires Counts(psize, qsize, cells, pos, g)
    requires |g.qs| > 0 && |g.after| > 0 && q == g.qs[0] == g.after[0]
    requires Merging(keys, pos, g.run + [g.qs[0]], g.ps, g.qs[1..])
    modifies cells`next
    ensures MergeInv(cmp, res, list', tail', p, psize, q', qsize', cells, infos, pos, TakenQ(g, keys))
  {
    CountsTakeQ(psize, qsize, cells, pos, g, keys);
    hide Splice, KeysAgree, Merging, Counts;
    list', tail', q' := TakeQ(list, tail, g.all, p, g.ps, q, g.after);
    qsize' := qsize - 1;
  }

  /** One turn of the inner loop. */
  method MergeStep(cmp: Comparator, res: CoreResults?, list: ListHead?, tail: ListHead?, p: ListHead?, psize: s32,
                   q: ListHead?, qsize: s32, ghost cells: set<ListHead>, ghost infos: set<ListData>,
                   ghost pos: Keys, ghost g: Merge)
    returns (list': ListHead?, tail': ListHead?, p': ListHead?, psize': s32, q': ListHead?, qsize': s32, ghost g': Merge)
    requires MergeInv(cmp, res, list, tail, p, psize, q, qsize, cells, infos, pos, g)
    requires psize > 0 || (qsize > 0 && q != null)
    modifies cells`next, infos`data16
    modifies ResultsOf(res)`crc, ResultsOf(res)`crcstate, ResultsOf(res)`crcmatrix
    ensures MergeInv(cmp, res, list', tail', p', psize', q', qsize', cells, infos, pos, g')
    ensures Taken(g, g') && Extends(g.keys, g'.keys) && AllKept(cmp, res, infos)
  {
    hide MergeInv, Splice, KeysAgree, Merging, Counts, DataKept;
    MergeHeads(cmp, res, list, tail, p, psize, q, qsize, cells, infos, pos, g);
    var fromP;
    ghost var keys;
    list', tail', p', psize', q', qsize' := list, tail, p, psize, q, qsize;
    fromP, keys := Choose(cmp, res, p, psize, q, qsize, infos, g.run, g.ps, g.qs, g.keys, pos);
    if fromP {
      list', tail', p', psize' := StepP(cmp, res, list, tail, p, psize, q, qsize, cells, infos, pos, g, keys);
      g' := TakenP(g, keys);
    } else {
      list', tail', q', qsize' := StepQ(cmp, res, list, tail, p, psize, q, qsize, cells, infos, pos, g, keys);
      g' := TakenQ(g, keys);
    }
  }

  /** When the inner loop ends nothing is left of the two runs. */
  lemma MergeEnds(cmp: Comparator, res: CoreResults?, list: ListHead?, tail: ListHead?, p: ListHead?, psize: s32,
                  q: ListHead?, qsize: s32, cells: set<ListHead>, infos: set<ListData>, pos: Keys, g: Merge)
    requires MergeInv(cmp, res, list, tail, p, psize, q, qsize, cells, infos, pos, g)
    requires !(psize > 0 || (qsize > 0 && q != null))
    ensures g.ps == [] && g.qs == []
    ensures Splice(list, tail, g.all, null, [], q, g.after)
    ensures Ordered(g.keys, pos, g.run) && KeysAgree(cmp, res, g.keys)
  {
    assert g.run + g.ps == g.run;
  }

  /** The inner loop of the merge sort: "now we have two lists; merge them". */
  method MergeRuns(cmp: Comparator, res: CoreResults?, list: ListHead?, tail: ListHead?, p: ListHead, psize: s32,
                   q: ListHead?, insize: s32, ghost cells: set<ListHead>,
                   ghost infos: set<ListData>, ghost pos: Keys,
                   ghost g: Merge, ghost rest: seq<ListHead>)
    returns (list': ListHead?, tail': ListHead?, q': ListHead?, ghost run: seq<ListHead>, ghost keys: Keys)
    requires MergeInv(cmp, res, list, tail, p, psize, q, insize, cells, infos, pos, g)
    requires g.run == [] && g.after == g.qs + rest
    modifies cells`next, infos`data16
    modifies ResultsOf(res)`crc, ResultsOf(res)`crcstate, ResultsOf(res)`crcmatrix
    ensures Splice(list', tail', g.all + run, null, [], q', rest)
    ensures multiset(run) == multiset(g.ps + g.qs)
    ensures Ordered(keys, pos, run) && KeysAgree(cmp, res, keys) && Extends(g.keys, keys)
    ensures AllKept(cmp, res, infos)
  {
    hide MergeInv, Reached, Splice, KeysAgree, Ordered, Taken;
    list', tail', q' := list, tail, q;
    var p': ListHead?, psize', qsize: s32 := p, psize, insize;
    ghost var h := g;
    ReachedAtFirst(g, rest);
    while psize' > 0 || (qsize > 0 && q' != null)
      invariant MergeInv(cmp, res, list', tail', p', psize', q', qsize, cells, infos, pos, h)
      invariant Reached(g.all, multiset(g.ps + g.qs), rest, h)
      invariant Extends(g.keys, h.keys) && AllKept(cmp, res, infos)
      decreases |h.ps| + |h.qs|
    {
      ghost var h0 := h;
      list', tail', p', psize', q', qsize, h :=
        MergeStep(cmp, res, list', tail', p', psize', q', qsize, cells, infos, pos, h0);
      ReachedStep(g.all, multiset(g.ps + g.qs), rest, h0, h);
    }
    run, keys := h.run, h.keys;
    MergeEnds(cmp, res, list', tail', p', psize', q', qsize, cells, infos, pos, h);
    ReachedAtLast(g.all, multiset(g.ps + g.qs), rest, h);
  }
}
