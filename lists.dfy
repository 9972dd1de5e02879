/** The list operations behind a completed drag: `Array.prototype.splice` removing one
    element and inserting one element, and the reorder built from the two. */
module Lists {
  import opened Decimal

  /** `splice(i, 1)`: the list without its element at `i`. */
  function Remove<T>(s: seq<T>, i: nat): (r: seq<T>)
    requires i < |s|
    ensures |r| == |s| - 1
    ensures forall k :: 0 <= k < i ==> r[k] == s[k]
    ensures forall k :: i <= k < |r| ==> r[k] == s[k + 1]
    ensures multiset(r) + multiset{s[i]} == multiset(s)
  {
    assert s == s[..i] + [s[i]] + s[i + 1..];
    s[..i] + s[i + 1..]
  }

  /** `splice(i, 0, x)`: the list with `x` inserted so that it sits at index `i`. */
  function Insert<T>(s: seq<T>, i: nat, x: T): (r: seq<T>)
    requires i <= |s|
    ensures |r| == |s| + 1
    ensures r[i] == x
    ensures forall k :: 0 <= k < i ==> r[k] == s[k]
    ensures forall k :: i < k < |r| ==> r[k] == s[k - 1]
    ensures multiset(r) == multiset(s) + multiset{x}
  {
    assert s == s[..i] + s[i..];
    s[..i] + [x] + s[i..]
  }

  lemma RemoveAfterInsert<T>(s: seq<T>, i: nat, x: T)
    requires i <= |s|
    ensures Remove(Insert(s, i, x), i) == s
  {
  }

  lemma InsertAfterRemove<T>(s: seq<T>, i: nat)
    requires i < |s|
    ensures Insert(Remove(s, i), i, s[i]) == s
  {
  }

  /** Move the element at `src` so that it ends at `dst`; as with splice, `dst` counts
      positions in the list after the removal. */
  function Reorder<T>(s: seq<T>, src: nat, dst: nat): (r: seq<T>)
    requires src < |s| && dst < |s|
    ensures |r| == |s|
    ensures multiset(r) == multiset(s)
    ensures r[dst] == s[src]
    ensures Remove(r, dst) == Remove(s, src)
  {
    RemoveAfterInsert(Remove(s, src), dst, s[src]);
    Insert(Remove(s, src), dst, s[src])
  }

  /** Where the element at index `i` after a move from `src` to `dst` came from. */
  function Origin(src: nat, dst: nat, i: nat): nat {
    if i == dst then src
    else if src < dst && src <= i < dst then i + 1
    else if dst < src && dst < i <= src then i - 1
    else i
  }

  lemma ReorderAt<T>(s: seq<T>, src: nat, dst: nat, i: nat)
    requires src < |s| && dst < |s| && i < |s|
    ensures Origin(src, dst, i) < |s|
    ensures Reorder(s, src, dst)[i] == s[Origin(src, dst, i)]
  {
  }

  /** The three facts in the contract of `Reorder` determine its result. */
  lemma ReorderUnique<T>(s: seq<T>, src: nat, dst: nat, r: seq<T>)
    requires src < |s| && dst < |s| && |r| == |s|
    requires r[dst] == s[src] && Remove(r, dst) == Remove(s, src)
    ensures r == Reorder(s, src, dst)
  {
    InsertAfterRemove(r, dst);
  }

  lemma ReorderSelf<T>(s: seq<T>, i: nat)
    requires i < |s|
    ensures Reorder(s, i, i) == s
  {
    InsertAfterRemove(s, i);
  }

  /** Dragging the moved element back to where it was restores the list. */
  lemma ReorderUndo<T>(s: seq<T>, src: nat, dst: nat)
    requires src < |s| && dst < |s|
    ensures Reorder(Reorder(s, src, dst), dst, src) == s
  {
    InsertAfterRemove(s, src);
  }

  /** [A, B, C, D, E] with the first element dropped at index 2 gives [B, C, A, D, E]. */
  lemma ReorderExample<T>(a: T, b: T, c: T, d: T, e: T)
    ensures Reorder([a, b, c, d, e], 0, 2) == [b, c, a, d, e]
  {
    FirstToThird([a, b, c, d, e]);
  }

  lemma FirstToThird<T>(s: seq<T>)
    requires |s| == 5
    ensures Reorder(s, 0, 2) == [s[1], s[2], s[0], s[3], s[4]]
  {
    ReorderAt(s, 0, 2, 0);
    ReorderAt(s, 0, 2, 1);
    ReorderAt(s, 0, 2, 2);
    ReorderAt(s, 0, 2, 3);
    ReorderAt(s, 0, 2, 4);
  }

  predicate Distinct<T(==)>(s: seq<T>) {
    forall i, j :: 0 <= i < j < |s| ==> s[i] != s[j]
  }

  lemma {:induction false} DistinctCount<T>(s: seq<T>, x: T)
    requires Distinct(s)
    ensures multiset(s)[x] <= 1
  {
    if s != [] {
      var t, last := s[..|s| - 1], s[|s| - 1];
      assert s == t + [last];
      DistinctCount(t, x);
      if x == last {
        assert x !in t;
      }
    }
  }

  lemma RepeatCount<T>(s: seq<T>, i: nat, j: nat)
    requires i < j < |s| && s[i] == s[j]
    ensures multiset(s)[s[i]] >= 2
  {
    assert s == s[..j] + s[j..];
    assert s[i] in s[..j];
    assert s[j] in s[j..];
  }

  /** A list with the same elements, counted with multiplicity, as a distinct list is distinct. */
  lemma DistinctByMultiset<T>(s: seq<T>, t: seq<T>)
    requires multiset(s) == multiset(t) && Distinct(t)
    ensures Distinct(s)
  {
    forall i, j | 0 <= i < j < |s| ensures s[i] != s[j] {
      if s[i] == s[j] {
        RepeatCount(s, i, j);
        DistinctCount(t, s[i]);
      }
    }
  }

  /** The identities of a list's elements, position by position. */
  function Ids<T>(s: seq<T>, id: T -> string): (ids: seq<string>)
    ensures |ids| == |s|
    ensures forall k :: 0 <= k < |s| ==> ids[k] == id(s[k])
  {
    seq(|s|, k requires 0 <= k < |s| => id(s[k]))
  }

  /** The ids of `s` are prefix1..prefixN in some order, each exactly once. */
  predicate IdsCanonical<T>(s: seq<T>, id: T -> string, prefix: string) {
    multiset(Ids(s, id)) == multiset(Labels(prefix, |s|))
  }

  /** The ids after a reorder are the old ids reordered the same way. */
  lemma ReorderIds<T>(s: seq<T>, id: T -> string, src: nat, dst: nat)
    requires src < |s| && dst < |s|
    ensures Ids(Reorder(s, src, dst), id) == Reorder(Ids(s, id), src, dst)
  {
    forall i | 0 <= i < |s|
      ensures Ids(Reorder(s, src, dst), id)[i] == Reorder(Ids(s, id), src, dst)[i]
    {
      ReorderAt(s, src, dst, i);
      ReorderAt(Ids(s, id), src, dst, i);
    }
  }

  lemma ReorderKeepsIdsCanonical<T>(s: seq<T>, id: T -> string, prefix: string, src: nat, dst: nat)
    requires src < |s| && dst < |s|
    requires IdsCanonical(s, id, prefix)
    ensures IdsCanonical(Reorder(s, src, dst), id, prefix)
  {
    ReorderIds(s, id, src, dst);
  }

  /** A list whose k-th id is prefix(k+1) has the id list prefix1..prefixN. */
  lemma LabelledIds<T>(s: seq<T>, id: T -> string, prefix: string)
    requires forall k :: 0 <= k < |s| ==> id(s[k]) == Label(prefix, k + 1)
    ensures Ids(s, id) == Labels(prefix, |s|)
  {
  }
}
