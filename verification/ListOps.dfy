/** The small list operations: find, reverse, remove and its undo (core_list_join.c). */
module ListOps {
  import opened Words
  import opened WordBits
  import opened ListCells

  /** What core_list_find looks for: an index or, if idx is negative, a low data byte. */
  datatype Target = Target(idx: s16, data16: s16)

  predicate Hits(item: Item, info: Target) {
    if info.idx >= 0 then item.idx == info.idx else item.data16.lo == info.data16
  }

  /** core_list_find compares the index or, for a negative index, the low byte of the data word. */
  lemma HitsBits(item: Item, info: Target)
    ensures Hits(item, info) <==>
      if info.idx < 0 then (Bits(item.data16) & 0xff) as int == info.data16 else item.idx == info.idx
  {
    LowerFields(item.data16);
  }

  predicate Matches(d: ListData, info: Target)
    reads d
  {
    Hits(ItemOf(d), info)
  }

  ghost function Reversed<T>(s: seq<T>): (r: seq<T>)
    ensures multiset(r) == multiset(s)
  {
    if |s| == 0 then [] else
      assert s == [s[0]] + s[1..];
      Reversed(s[1..]) + [s[0]]
  }

  lemma {:induction false} ReversedAt<T>(s: seq<T>, k: nat)
    requires k < |s|
    ensures |Reversed(s)| == |s| && Reversed(s)[k] == s[|s| - 1 - k]
  {
    assert |Reversed(s)| == |multiset(Reversed(s))| == |s|;
    if k < |s| - 1 {
      ReversedAt(s[1..], k);
    } else {
      assert |Reversed(s[1..])| == |multiset(s[1..])| == |s| - 1;
    }
  }

  /** The data items of the cells, in the order of the list. */
  ghost function Items(s: seq<ListHead>): (ds: seq<ListData>)
    reads s`info
    ensures |ds| == |s| && forall i :: 0 <= i < |s| ==> ds[i] == s[i].info
  {
    if |s| == 0 then [] else [s[0].info] + Items(s[1..])
  }

  /** The number of items in front of the first one that matches. */
  ghost function FirstMatch(ds: seq<ListData>, info: Target): (k: nat)
    reads ds
    ensures k <= |ds|
  {
    if |ds| == 0 || Matches(ds[0], info) then 0 else 1 + FirstMatch(ds[1..], info)
  }

  lemma {:induction false} FirstMatchIs(ds: seq<ListData>, info: Target, k: nat)
    requires k <= |ds| && (forall i :: 0 <= i < k ==> !Matches(ds[i], info)) && (k < |ds| ==> Matches(ds[k], info))
    ensures FirstMatch(ds, info) == k
  {
    hide Matches;
    if k > 0 {
      FirstMatchIs(ds[1..], info, k - 1);
    }
  }

  /** The first cell that matches, or NULL if none does. */
  method Find(list: ListHead?, info: Target, ghost s: seq<ListHead>) returns (found: ListHead?, ghost k: nat)
    requires list == Head(s, null) && Terminated(s)
    ensures found != null ==> found in s && Matches(found.info, info)
    ensures found == null ==> forall i :: 0 <= i < |s| ==> !Matches(s[i].info, info)
    ensures k == FirstMatch(Items(s), info) && found == Head(s[k..], null)
    ensures forall i :: 0 <= i < k ==> !Matches(s[i].info, info)
    ensures k < |s| ==> Matches(s[k].info, info)
  {
    found, k := list, 0;
    while found != null && !Matches(found.info, info)
      invariant k <= |s| && found == (if k < |s| then s[k] else null)
      invariant forall i :: 0 <= i < k ==> !Matches(s[i].info, info)
      decreases |s| - k
    {
      assert k + 1 < |s| ==> s[k].next == s[k + 1];
      found, k := found.next, k + 1;
    }
    FirstMatchIs(Items(s), info, k);
  }

  lemma HeadIsApart(rev: seq<ListHead>, rest: seq<ListHead>)
    requires |rest| > 0 && NoDup(rev + rest)
    ensures rest[0] !in rev && rest[0] !in rest[1..]
    ensures NoDup(([rest[0]] + rev) + rest[1..])
  {
    assert rest == [rest[0]] + rest[1..];
    assert multiset(([rest[0]] + rev) + rest[1..]) == multiset(rev + rest);
    assert multiset(rev + rest)[rest[0]] == multiset(rev)[rest[0]] + 1 + multiset(rest[1..])[rest[0]];
  }

  /** `list->next = next;`: the first cell of rest is put in front of rev. */
  method PushFront(cell: ListHead, next: ListHead?, ghost rev: seq<ListHead>, ghost rest: seq<ListHead>)
    requires next == Head(rev, null) && Terminated(rev) && Terminated(rest)
    requires cell !in rev && cell !in rest
    modifies cell`next
    ensures Terminated([cell] + rev) && Terminated(rest)
  {
    cell.next := next;
    forall i | 0 <= i < |rev|
      ensures ([cell] + rev)[i].next == ([cell] + rev)[i + 1]
    {
      assert i > 0 ==> rev[i - 1].next == rev[i];
    }
  }

  /** The state of the reverse loop: rev has been reversed onto next, rest is still linked from cell. */
  ghost predicate Reversing(s: seq<ListHead>, next: ListHead?, rev: seq<ListHead>, cell: ListHead?, rest: seq<ListHead>)
    reads rev`next, rest`next
  {
    && NoDup(rev + rest) && Reversed(s) == Reversed(rest) + rev
    && next == Head(rev, null) && Terminated(rev)
    && cell == Head(rest, null) && Terminated(rest)
    && forall i :: 0 <= i < |rest| ==> rest[i] in s
  }

  lemma ReversedShift<T>(rev: seq<T>, rest: seq<T>)
    requires |rest| > 0
    ensures Reversed(rest) + rev == Reversed(rest[1..]) + ([rest[0]] + rev)
  {
  }

  /** One turn of the reverse loop. */
  method ReverseStep(next: ListHead?, cell: ListHead, ghost s: seq<ListHead>, ghost rev: seq<ListHead>,
                     ghost rest: seq<ListHead>)
    returns (tmp: ListHead?)
    requires Reversing(s, next, rev, cell, rest) && |rest| > 0
    modifies cell`next
    ensures Reversing(s, cell, [cell] + rev, tmp, rest[1..])
  {
    hide NoDup, Reversed;
    tmp := cell.next;
    HeadIsApart(rev, rest);
    ReversedShift(rev, rest);
    PushFront(cell, next, rev, rest[1..]);
  }

  /** Reverses the links of a list in place. */
  method Reverse(list: ListHead?, ghost s: seq<ListHead>) returns (next: ListHead?)
    requires IsList(list, s)
    modifies s`next
    ensures IsList(next, Reversed(s))
  {
    hide NoDup, Linked, Reversed;
    var cell: ListHead? := list;
    next := null;
    ghost var rev: seq<ListHead>, rest := [], s;
    ReverseStarts(s, list);
    while cell != null
      invariant Reversing(s, next, rev, cell, rest)
      decreases |rest|
    {
      assert cell == rest[0] && cell in s;
      var tmp := ReverseStep(next, cell, s, rev, rest);
      next, rev, rest := cell, [cell] + rev, rest[1..];
      cell := tmp;
    }
    ReverseEnds(s, next, rev);
  }

  lemma ReverseStarts(s: seq<ListHead>, list: ListHead?)
    requires IsList(list, s)
    ensures Reversing(s, null, [], list, s)
  {
    assert [] + s == s && Reversed(s) + [] == Reversed(s);
  }

  lemma ReverseEnds(s: seq<ListHead>, next: ListHead?, rev: seq<ListHead>)
    requires Reversing(s, next, rev, null, [])
    ensures IsList(next, Reversed(s))
  {
    assert rev + [] == rev && Reversed(s) == rev;
  }

  /** Taking the cell behind position k out of a list, and putting it back there. */
  ghost function Without<T>(s: seq<T>, k: nat): seq<T>
    requires k + 1 < |s|
  {
    s[..k + 1] + s[k + 2..]
  }

  /** The links of s are right; like Linked(s), without the sequences in between. */
  lemma Relink(s: seq<ListHead>)
    requires forall i {:trigger s[i]} :: 0 <= i < |s| ==> s[i].next == (if i + 1 < |s| then s[i + 1] else null)
    ensures Terminated(s)
  {
    assert |s| > 0 ==> s[|s| - 1].next == null;
  }

  lemma NoDupWithout(s: seq<ListHead>, k: nat)
    requires k + 1 < |s| && NoDup(s)
    ensures NoDup(Without(s, k)) && s[k + 1] !in Without(s, k)
  {
    assert s == s[..k + 1] + [s[k + 1]] + s[k + 2..];
    assert multiset(s) == multiset(Without(s, k)) + multiset{s[k + 1]};
    assert multiset(s)[s[k + 1]] == multiset(Without(s, k))[s[k + 1]] + 1;
    forall c | c in Without(s, k)
      ensures multiset(Without(s, k))[c] == 1
    {
      assert c in multiset(Without(s, k)) && c in multiset(s);
    }
  }

  /** Removes the cell behind item = s[k], which takes over its data; the removed cell keeps the data of item. */
  method Remove(item: ListHead, ghost s: seq<ListHead>, ghost k: nat) returns (ret: ListHead)
    requires Terminated(s) && NoDup(s) && k + 1 < |s| && item == s[k]
    modifies item, s[k + 1]
    ensures ret == s[k + 1] && ret.next == null
    ensures Terminated(Without(s, k)) && NoDup(Without(s, k)) && ret !in Without(s, k)
    ensures item.info == old(s[k + 1].info) && ret.info == old(item.info)
  {
    NoDupIndices(s);
    NoDupWithout(s, k);
    assert k + 2 < |s| ==> s[k + 1].next == s[k + 2];
    ret := item.next;
    var tmp := item.info;
    item.info := ret.info;
    ret.info := tmp;
    item.next := item.next.next;
    ret.next := null;
    Relink(Without(s, k));
  }

  /** Links removed back behind modified = s'[k], where s' is the list without it, and swaps the data back. */
  method UndoRemove(removed: ListHead, modified: ListHead, ghost s: seq<ListHead>, ghost k: nat) returns (item: ListHead)
    requires NoDup(s) && k + 1 < |s| && removed == s[k + 1] && modified == s[k] && Terminated(Without(s, k))
    modifies removed, modified
    ensures item == removed && Terminated(s)
    ensures removed.info == old(modified.info) && modified.info == old(removed.info)
  {
    NoDupIndices(s);
    var tmp := removed.info;
    removed.info := modified.info;
    modified.info := tmp;
    assert Without(s, k)[k] == modified && (k + 2 < |s| ==> Without(s, k)[k + 1] == s[k + 2]);
    removed.next := modified.next;
    modified.next := removed;
    item := removed;
    forall i | 0 <= i < |s|
      ensures s[i].next == (if i + 1 < |s| then s[i + 1] else null)
    {
      assert i < k ==> Without(s, k)[i] == s[i] && Without(s, k)[i + 1] == s[i + 1];
      assert i > k + 1 ==> Without(s, k)[i - 1] == s[i];
      assert i > k + 1 && i + 1 < |s| ==> Without(s, k)[i] == s[i + 1];
    }
    Relink(s);
  }

  /** The list after the cell behind position k has been moved right behind the head. */
  ghost function Moved<T>(s: seq<T>, k: nat): (r: seq<T>)
    requires k + 1 < |s|
    ensures |r| == |s| && r[0] == s[0]
  {
    if k == 0 then s else [s[0]] + [s[k + 1]] + s[1..k + 1] + s[k + 2..]
  }

  lemma SwapParts<T>(a: seq<T>, x: seq<T>, y: seq<T>, b: seq<T>)
    ensures multiset(a + x + y + b) == multiset(a + y + x + b)
  {
  }

  lemma FourParts<T>(s: seq<T>, k: nat)
    requires k + 1 < |s|
    ensures s == [s[0]] + s[1..k + 1] + [s[k + 1]] + s[k + 2..]
  {
  }

  lemma MovedKeeps<T>(s: seq<T>, k: nat)
    requires k + 1 < |s|
    ensures multiset(Moved(s, k)) == multiset(s)
  {
    if k > 0 {
      FourParts(s, k);
      SwapParts([s[0]], s[1..k + 1], [s[k + 1]], s[k + 2..]);
    }
  }

  lemma MovedIsPermutation(s: seq<ListHead>, k: nat)
    requires k + 1 < |s|
    ensures multiset(Moved(s, k)) == multiset(s)
    ensures NoDup(s) ==> NoDup(Moved(s, k))
  {
    hide Moved;
    MovedKeeps(s, k);
  }

  lemma NotMoved(list: ListHead, s: seq<ListHead>, k: nat)
    requires IsList(list, s) && k < |s|
    ensures s[k].next == (if k + 1 < |s| then s[k + 1] else null)
    ensures k + 2 < |s| ==> s[k + 1].next == s[k + 2]
    ensures k + 2 == |s| ==> s[k + 1].next == null
    ensures k + 1 < |s| ==> Terminated(s[k + 2..])
    ensures k > 0 ==> s[0].next == s[1] && (forall i :: 1 <= i < k ==> s[i].next == s[i + 1])
  {
  }

  /** Unlinks the cell behind this_find and links it behind list; when these are the same cell nothing changes. */
  method LinkBehindHead(list: ListHead, this_find: ListHead)
    requires this_find.next != null && this_find.next != this_find && this_find.next != list
    modifies this_find`next, this_find.next`next, list`next
    ensures list.next == old(this_find.next)
    ensures this_find == list ==> list.next.next == old(this_find.next.next)
    ensures this_find != list ==> list.next.next == old(list.next) && this_find.next == old(this_find.next.next)
  {
    var finder := this_find.next;
    this_find.next := finder.next;
    finder.next := list.next;
    list.next := finder;
  }

  /** "and cache next item at the head of the list (if any)" */
  method CacheNext(list: ListHead, this_find: ListHead, ghost s: seq<ListHead>, ghost k: nat)
    requires IsList(list, s) && k < |s| && this_find == s[k]
    modifies s`next
    ensures IsList(list, if k + 1 < |s| then Moved(s, k) else s)
  {
    hide NoDup, Moved, Linked;
    NoDupIndices(s);
    NotMoved(list, s, k);
    if this_find.next != null {
      MovedIsPermutation(s, k);
      LinkBehindHead(list, this_find);
      MovedLinks(s, k);
    }
  }

  lemma MovedLinks(s: seq<ListHead>, k: nat)
    requires k + 1 < |s|
    requires k == 0 ==> Terminated(s)
    requires k > 0 ==> s[0].next == s[k + 1] && s[k + 1].next == s[1] && (forall i :: 1 <= i < k ==> s[i].next == s[i + 1])
    requires k > 0 ==> s[k].next == Head(s[k + 2..], null) && Terminated(s[k + 2..])
    ensures Terminated(Moved(s, k))
  {
    if k > 0 {
      var r := Moved(s, k);
      forall i | 0 <= i < |r|
        ensures r[i].next == (if i + 1 < |r| then r[i + 1] else null)
      {
        assert 2 <= i <= k + 1 ==> r[i] == s[i - 1];
        assert 2 <= i <= k ==> r[i + 1] == s[i];
        assert k + 2 <= i ==> r[i] == s[k + 2..][i - k - 2];
        assert k + 2 <= i && i + 1 < |r| ==> r[i + 1] == s[k + 2..][i - k - 1];
      }
      Relink(r);
    }
  }
}
