/**
 * The order the merge sort produces, and the runs it produces it in.
 * `keys` holds the key of every cell the comparator has looked at so far; `pos` the position in the input list.
 */
module ListRuns {
  import opened ListCells

  type Keys = map<ListHead, int>

  /** x may stand before y: a smaller key, or the same key and an earlier input position. */
  ghost predicate Before(keys: Keys, pos: Keys, x: ListHead, y: ListHead) {
    && x in keys && y in keys && x in pos && y in pos
    && (keys[x] < keys[y] || (keys[x] == keys[y] && pos[x] < pos[y]))
  }

  ghost predicate Ordered(keys: Keys, pos: Keys, s: seq<ListHead>) {
    forall i, j :: 0 <= i < j < |s| ==> Before(keys, pos, s[i], s[j])
  }

  /** Every cell of a came earlier in the input than every cell of b. */
  ghost predicate Earlier(pos: Keys, a: seq<ListHead>, b: seq<ListHead>) {
    forall i, j :: 0 <= i < |a| && 0 <= j < |b| ==> a[i] in pos && b[j] in pos && pos[a[i]] < pos[b[j]]
  }

  /** more has every key that keys has. */
  ghost predicate Extends(keys: Keys, more: Keys) {
    forall c :: c in keys ==> c in more && more[c] == keys[c]
  }

  ghost function Flat<T>(runs: seq<seq<T>>): seq<T> {
    if |runs| == 0 then [] else runs[0] + Flat(runs[1..])
  }

  /** Consecutive runs of w cells (the last may be shorter), each ordered, earlier runs from earlier in the input. */
  ghost predicate Runs(keys: Keys, pos: Keys, runs: seq<seq<ListHead>>, w: int) {
    && (forall k :: 0 <= k < |runs| ==> 0 < |runs[k]| <= w)
    && (forall k :: 0 <= k < |runs| - 1 ==> |runs[k]| == w)
    && (forall k :: 0 <= k < |runs| ==> Ordered(keys, pos, runs[k]))
    && (forall k, l :: 0 <= k < l < |runs| ==> Earlier(pos, runs[k], runs[l]))
  }

  lemma {:induction false} FlatAppend<T>(runs: seq<seq<T>>, r: seq<T>)
    ensures Flat(runs + [r]) == Flat(runs) + r
  {
    if |runs| == 0 {
      assert runs + [r] == [r];
      assert Flat([r]) == r + Flat([r][1..]);
    } else {
      assert (runs + [r])[1..] == runs[1..] + [r];
      FlatAppend(runs[1..], r);
    }
  }

  lemma OrderedExtends(keys: Keys, more: Keys, pos: Keys, s: seq<ListHead>)
    requires Extends(keys, more) && Ordered(keys, pos, s)
    ensures Ordered(more, pos, s)
  {
  }

  /**
   * State of one merge: run has been produced, ps and qs are what is left of the two input runs.
   * Once both heads have been compared every cell of a run of two or more has a key.
   */
  ghost predicate Merging(keys: Keys, pos: Keys, run: seq<ListHead>, ps: seq<ListHead>, qs: seq<ListHead>) {
    Ordered(keys, pos, run + ps) && Ordered(keys, pos, run + qs) && Earlier(pos, ps, qs)
  }

  lemma MergingExtends(keys: Keys, more: Keys, pos: Keys, run: seq<ListHead>, ps: seq<ListHead>, qs: seq<ListHead>)
    requires Extends(keys, more) && Merging(keys, pos, run, ps, qs)
    ensures Merging(more, pos, run, ps, qs)
  {
    OrderedExtends(keys, more, pos, run + ps);
    OrderedExtends(keys, more, pos, run + qs);
  }

  /** Moving the head x of xs, which may stand before the head of ys, keeps run + ys ordered. */
  lemma OrderedMove(keys: Keys, pos: Keys, run: seq<ListHead>, x: ListHead, xs: seq<ListHead>, ys: seq<ListHead>)
    requires Ordered(keys, pos, run + ([x] + xs)) && Ordered(keys, pos, run + ys)
    requires |ys| > 0 ==> Before(keys, pos, x, ys[0])
    ensures Ordered(keys, pos, (run + [x]) + xs) && Ordered(keys, pos, (run + [x]) + ys)
  {
    assert (run + [x]) + xs == run + ([x] + xs);
    var n, a, b, z := |run|, run + ([x] + xs), run + ys, (run + [x]) + ys;
    forall i, j | 0 <= i < j < |z|
      ensures Before(keys, pos, z[i], z[j])
    {
      if j < n {
        assert z[i] == a[i] && z[j] == a[j];
      } else if j == n {
        assert z[i] == a[i] && z[j] == a[n];
      } else if i < n {
        assert z[i] == b[i] && z[j] == b[j - 1];
      } else if i == n {
        assert z[j] == b[j - 1] && b[n] == ys[0];
        assert j - 1 == n || Before(keys, pos, b[n], b[j - 1]);
      } else {
        assert z[i] == b[i - 1] && z[j] == b[j - 1];
      }
    }
  }

  /** Taking the head of ps. */
  lemma MergingTakeP(keys: Keys, pos: Keys, run: seq<ListHead>, ps: seq<ListHead>, qs: seq<ListHead>)
    requires Merging(keys, pos, run, ps, qs)
    requires |ps| > 0 && (|qs| > 0 ==> Before(keys, pos, ps[0], qs[0]))
    ensures Merging(keys, pos, run + [ps[0]], ps[1..], qs)
  {
    assert ps == [ps[0]] + ps[1..];
    OrderedMove(keys, pos, run, ps[0], ps[1..], qs);
  }

  /** Taking the head of qs. */
  lemma MergingTakeQ(keys: Keys, pos: Keys, run: seq<ListHead>, ps: seq<ListHead>, qs: seq<ListHead>)
    requires Merging(keys, pos, run, ps, qs)
    requires |qs| > 0 && (|ps| > 0 ==> Before(keys, pos, qs[0], ps[0]))
    ensures Merging(keys, pos, run + [qs[0]], ps, qs[1..])
  {
    assert qs == [qs[0]] + qs[1..];
    OrderedMove(keys, pos, run, qs[0], qs[1..], ps);
  }

  /** What the inner loop has done so far: all is linked and ends in run; ps and qs are left, and after from q on. */
  datatype Merge = Merge(all: seq<ListHead>, run: seq<ListHead>, ps: seq<ListHead>, qs: seq<ListHead>,
                         after: seq<ListHead>, keys: Keys)

  ghost function TakenP(g: Merge, keys: Keys): Merge
    requires |g.ps| > 0
  {
    Merge(g.all + [g.ps[0]], g.run + [g.ps[0]], g.ps[1..], g.qs, g.after, keys)
  }

  ghost function TakenQ(g: Merge, keys: Keys): Merge
    requires |g.qs| > 0 && |g.after| > 0
  {
    Merge(g.all + [g.qs[0]], g.run + [g.qs[0]], g.ps, g.qs[1..], g.after[1..], keys)
  }

  /** g follows from the start of the merge with output out and rest behind the two runs; no cell is lost. */
  ghost predicate Reached(out: seq<ListHead>, held: multiset<ListHead>, rest: seq<ListHead>, g: Merge) {
    && g.all == out + g.run
    && g.after == g.qs + rest
    && multiset(g.run + g.ps + g.qs) == held
  }

  /** One cell has been moved from ps or qs to run. */
  ghost predicate Taken(g: Merge, g': Merge) {
    || (|g.ps| > 0 && g' == TakenP(g, g'.keys))
    || (|g.qs| > 0 && |g.after| > 0 && g' == TakenQ(g, g'.keys))
  }

  lemma ReachedTakeP(out: seq<ListHead>, held: multiset<ListHead>, rest: seq<ListHead>, g: Merge, keys: Keys)
    requires Reached(out, held, rest, g) && |g.ps| > 0
    ensures Reached(out, held, rest, TakenP(g, keys))
  {
    assert (g.run + [g.ps[0]]) + g.ps[1..] == g.run + g.ps;
  }

  lemma ReachedTakeQ(out: seq<ListHead>, held: multiset<ListHead>, rest: seq<ListHead>, g: Merge, keys: Keys)
    requires Reached(out, held, rest, g) && |g.qs| > 0
    ensures Reached(out, held, rest, TakenQ(g, keys))
  {
    MoveFirst(g.run, g.ps, g.qs);
  }

  lemma ReachedStep(out: seq<ListHead>, held: multiset<ListHead>, rest: seq<ListHead>, g: Merge, g': Merge)
    requires Reached(out, held, rest, g) && Taken(g, g')
    ensures Reached(out, held, rest, g')
    ensures |g'.ps| + |g'.qs| < |g.ps| + |g.qs|
  {
    hide Reached;
    if |g.ps| > 0 && g' == TakenP(g, g'.keys) {
      ReachedTakeP(out, held, rest, g, g'.keys);
    } else {
      ReachedTakeQ(out, held, rest, g, g'.keys);
    }
  }

  lemma ReachedAtFirst(g: Merge, rest: seq<ListHead>)
    requires g.run == [] && g.after == g.qs + rest
    ensures Reached(g.all, multiset(g.ps + g.qs), rest, g)
  {
    assert g.run + g.ps + g.qs == g.ps + g.qs;
  }

  lemma ReachedAtLast(out: seq<ListHead>, held: multiset<ListHead>, rest: seq<ListHead>, g: Merge)
    requires Reached(out, held, rest, g) && g.ps == [] && g.qs == []
    ensures g.all == out + g.run && g.after == rest && multiset(g.run) == held
  {
    assert g.run + g.ps + g.qs == g.run;
  }

  lemma MoveFirst(out: seq<ListHead>, ps: seq<ListHead>, after: seq<ListHead>)
    requires |after| > 0
    ensures multiset(out + ps + after) == multiset((out + [after[0]]) + ps + after[1..])
    ensures NoDup(out + ps + after) ==> NoDup((out + [after[0]]) + ps + after[1..])
  {
    assert after == [after[0]] + after[1..];
  }

  /** Two leading runs are replaced by their merge at the end of the output. */
  lemma MergedRuns(keys: Keys, pos: Keys, done: seq<seq<ListHead>>, run: seq<ListHead>, w: int)
    requires w > 0 && Runs(keys, pos, done, w) && Ordered(keys, pos, run) && 0 < |run| <= w
    requires forall k :: 0 <= k < |done| ==> |done[k]| == w && Earlier(pos, done[k], run)
    ensures Runs(keys, pos, done + [run], w)
  {
  }

  /** Position of a cell in a list. */
  ghost function Rank(s: seq<ListHead>, c: ListHead): (r: nat)
    requires c in s
    ensures r < |s| && s[r] == c
  {
    if s[0] == c then 0 else 1 + Rank(s[1..], c)
  }

  lemma RankIs(s: seq<ListHead>, i: nat)
    requires NoDup(s) && i < |s|
    ensures Rank(s, s[i]) == i
  {
    NoDupIndices(s);
  }

  ghost function Ranks(s: seq<ListHead>): Keys {
    map c | c in s :: Rank(s, c)
  }

  /** At the start of the sort every cell is a run of its own. */
  ghost function Singles(s: seq<ListHead>): (runs: seq<seq<ListHead>>)
    ensures |runs| == |s| && forall i :: 0 <= i < |s| ==> runs[i] == [s[i]]
  {
    seq(|s|, i requires 0 <= i < |s| => [s[i]])
  }

  lemma {:induction false} SinglesFlat(s: seq<ListHead>)
    ensures Flat(Singles(s)) == s
  {
    if |s| > 0 {
      assert Singles(s)[1..] == Singles(s[1..]);
      SinglesFlat(s[1..]);
    }
  }

  lemma SinglesAreRuns(s: seq<ListHead>)
    requires NoDup(s)
    ensures Runs(map[], Ranks(s), Singles(s), 1)
  {
    forall k, l | 0 <= k < l < |s|
      ensures Earlier(Ranks(s), Singles(s)[k], Singles(s)[l])
    {
      RankIs(s, k);
      RankIs(s, l);
    }
  }
}
