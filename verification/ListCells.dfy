/** List cells of the CoreMark list kernel (coremark.h, core_list_join.c). */
module ListCells {
  import opened Words

  /** `list_data`: the upper byte of data16 is a backup of the lower byte. */
  class ListData {
    var data16: Word16
    var idx: s16
  }

  /** What a data item holds. */
  datatype Item = Item(data16: Word16, idx: s16)

  function ItemOf(d: ListData): Item
    reads d
  {
    Item(d.data16, d.idx)
  }

  /** `list_head`: one heap cell. */
  class ListHead {
    var next: ListHead?
    var info: ListData

    constructor (info: ListData)
      ensures this.info == info && next == null
    {
      this.info, this.next := info, null;
    }
  }

  ghost function Head(s: seq<ListHead>, after: ListHead?): ListHead? {
    if |s| == 0 then after else s[0]
  }

  /** The cells of s are linked in this order; where the last one points is left open. */
  ghost predicate Linked(s: seq<ListHead>)
    reads s`next
  {
    forall i :: 0 <= i < |s| - 1 ==> s[i].next == s[i + 1]
  }

  /** The cells of s are linked in this order and the last one points to NULL. */
  ghost predicate Terminated(s: seq<ListHead>)
    reads s`next
  {
    Linked(s) && (|s| > 0 ==> s[|s| - 1].next == null)
  }

  /** No cell occurs twice. */
  ghost predicate NoDup<T>(s: seq<T>) {
    forall c :: c in s ==> multiset(s)[c] == 1
  }

  /** head points to an acyclic NULL-terminated list whose cells are exactly s, in this order. */
  ghost predicate IsList(head: ListHead?, s: seq<ListHead>)
    reads s`next
  {
    head == Head(s, null) && Terminated(s) && NoDup(s)
  }

  lemma NoDupIndices<T>(s: seq<T>)
    requires NoDup(s)
    ensures forall i, j :: 0 <= i < j < |s| ==> s[i] != s[j]
  {
    forall i, j | 0 <= i < j < |s|
      ensures s[i] != s[j]
    {
      assert s == s[..j] + s[j..];
      assert s[i] == s[..j][i] && s[j] == s[j..][0];
      assert multiset(s)[s[i]] == multiset(s[..j])[s[i]] + multiset(s[j..])[s[i]];
      assert s[i] in s[..j] && s[j] in s[j..];
    }
  }
}
