/** One pass of the merge sort over the runs of the list, without the heap. */
module ListPasses {
  import opened ListCells
  import opened ListRuns

  /** The run that q points to; empty when p's run is the last one. */
  ghost function Second<T>(todo: seq<seq<T>>): seq<T> {
    if |todo| >= 2 then todo[1] else []
  }

  ghost function Others<T>(todo: seq<seq<T>>): seq<seq<T>> {
    if |todo| >= 2 then todo[2..] else []
  }

  ghost predicate Pass(keys: Keys, pos: Keys, w: int, done: seq<seq<ListHead>>, todo: seq<seq<ListHead>>) {
    && w > 0
    && Runs(keys, pos, done, 2 * w) && Runs(keys, pos, todo, w)
    && (|todo| > 0 ==> forall k :: 0 <= k < |done| ==> |done[k]| == 2 * w)
    && forall k, l :: 0 <= k < |done| && 0 <= l < |todo| ==> Earlier(pos, done[k], todo[l])
  }

  lemma {:induction false} FlatFirstTwo<T>(todo: seq<seq<T>>)
    requires |todo| > 0
    ensures Flat(todo) == todo[0] + Second(todo) + Flat(Others(todo))
  {
    if |todo| >= 2 {
      assert todo[1..][1..] == todo[2..];
      assert Flat(todo[1..]) == todo[1] + Flat(todo[2..]);
    } else {
      assert todo[1..] == [];
    }
  }

  /** p's run has min(w, cells left) cells; so has q's run, of the cells left behind it. */
  lemma {:induction false} RunSizes(keys: Keys, pos: Keys, w: int, todo: seq<seq<ListHead>>)
    requires w > 0 && Runs(keys, pos, todo, w) && |todo| > 0
    ensures |Flat(todo)| == |todo[0]| + |Second(todo)| + |Flat(Others(todo))|
    ensures 0 < |todo[0]| <= w && (|todo[0]| < w ==> Second(todo) + Flat(Others(todo)) == [])
    ensures |Second(todo)| <= w && (|Second(todo)| < w ==> Flat(Others(todo)) == [])
  {
    FlatFirstTwo(todo);
    if |todo| >= 3 {
      assert |todo[0]| == w && |todo[1]| == w;
    }
  }

  lemma FirstTwoMerge(keys: Keys, pos: Keys, w: int, todo: seq<seq<ListHead>>)
    requires Runs(keys, pos, todo, w) && |todo| > 0
    ensures Merging(keys, pos, [], todo[0], Second(todo))
  {
    assert [] + todo[0] == todo[0] && [] + Second(todo) == Second(todo);
    if |todo| >= 2 {
      assert Ordered(keys, pos, todo[0]) && Ordered(keys, pos, todo[1]) && Earlier(pos, todo[0], todo[1]);
    }
  }

  lemma OthersAreRuns(keys: Keys, pos: Keys, w: int, todo: seq<seq<ListHead>>)
    requires Runs(keys, pos, todo, w)
    ensures Runs(keys, pos, Others(todo), w)
  {
    hide Ordered, Earlier;
  }

  /** A cell of a merged run comes from one of the two runs. */
  lemma CellOfMerged(run: seq<ListHead>, ps: seq<ListHead>, qs: seq<ListHead>, j: nat) returns (fromP: bool, i: nat)
    requires multiset(run) == multiset(ps + qs) && j < |run|
    ensures if fromP then i < |ps| && ps[i] == run[j] else i < |qs| && qs[i] == run[j]
  {
    assert run[j] in multiset(ps + qs);
    var k :| 0 <= k < |ps + qs| && (ps + qs)[k] == run[j];
    fromP := k < |ps|;
    i := if fromP then k else k - |ps|;
  }

  lemma EarlierThanRun(pos: Keys, a: seq<ListHead>, run: seq<ListHead>, ps: seq<ListHead>, qs: seq<ListHead>)
    requires multiset(run) == multiset(ps + qs) && Earlier(pos, a, ps) && Earlier(pos, a, qs)
    ensures Earlier(pos, a, run)
  {
    if !Earlier(pos, a, run) {
      var i, j :| 0 <= i < |a| && 0 <= j < |run| && !(a[i] in pos && run[j] in pos && pos[a[i]] < pos[run[j]]);
      var fromP, k := CellOfMerged(run, ps, qs, j);
      assert false;
    }
  }

  lemma RunEarlierThan(pos: Keys, run: seq<ListHead>, ps: seq<ListHead>, qs: seq<ListHead>, a: seq<ListHead>)
    requires multiset(run) == multiset(ps + qs) && Earlier(pos, ps, a) && Earlier(pos, qs, a)
    ensures Earlier(pos, run, a)
  {
    if !Earlier(pos, run, a) {
      var i, j :| 0 <= i < |run| && 0 <= j < |a| && !(run[i] in pos && a[j] in pos && pos[run[i]] < pos[a[j]]);
      var fromP, k := CellOfMerged(run, ps, qs, i);
      assert false;
    }
  }

  lemma NothingIsEarlier(pos: Keys, a: seq<ListHead>)
    ensures Earlier(pos, a, []) && Earlier(pos, [], a)
  {
  }

  lemma RunsExtend(keys: Keys, more: Keys, pos: Keys, runs: seq<seq<ListHead>>, w: int)
    requires Extends(keys, more) && Runs(keys, pos, runs, w)
    ensures Runs(more, pos, runs, w)
  {
    forall k | 0 <= k < |runs|
      ensures Ordered(more, pos, runs[k])
    {
      OrderedExtends(keys, more, pos, runs[k]);
    }
  }

  /** Merging the first two runs still to do into a run of the output. */
  lemma PassStep(keys: Keys, keys': Keys, pos: Keys, w: int, done: seq<seq<ListHead>>, todo: seq<seq<ListHead>>,
                 run: seq<ListHead>)
    requires Pass(keys, pos, w, done, todo) && |todo| > 0 && Extends(keys, keys')
    requires Ordered(keys', pos, run) && multiset(run) == multiset(todo[0] + Second(todo))
    ensures Pass(keys', pos, w, done + [run], Others(todo))
  {
    RunsExtend(keys, keys', pos, done, 2 * w);
    OthersAreRuns(keys, pos, w, todo);
    RunsExtend(keys, keys', pos, Others(todo), w);
    assert |run| == |multiset(run)| == |todo[0] + Second(todo)|;
    forall k | 0 <= k < |done|
      ensures Earlier(pos, done[k], run)
    {
      NothingIsEarlier(pos, done[k]);
      EarlierThanRun(pos, done[k], run, todo[0], Second(todo));
    }
    forall l | 0 <= l < |Others(todo)|
      ensures Earlier(pos, run, Others(todo)[l])
    {
      assert Others(todo)[l] == todo[2 + l];
      RunEarlierThan(pos, run, todo[0], Second(todo), Others(todo)[l]);
    }
    hide Ordered, Earlier;
    MergedRuns(keys', pos, done, run, 2 * w);
  }
}
