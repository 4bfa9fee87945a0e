/** ID lists (midl.c): search, in-place merge, and lists that grow.

    A list is an array whose element 0 is the count; ids follow in descending order. */
module IdLists {
  import opened IdSort

  const UM_MAX := 0x1_ffff

  ghost predicate IsList(ids: seq<Id>) {
    |ids| > 0 && ids[0] < |ids|
  }

  function Count(ids: seq<Id>): nat
    requires |ids| > 0
  {
    ids[0]
  }

  /** The ids of a list, without the count. */
  function Ids(ids: seq<Id>): (r: seq<Id>)
    requires IsList(ids)
    ensures |r| == Count(ids)
  {
    ids[1..Count(ids) + 1]
  }

  /** Descending, duplicates allowed. */
  ghost predicate Falling(s: seq<Id>) {
    forall p, q | 0 <= p < q < |s| :: s[p] >= s[q]
  }

  /** Strictly descending: the form of every list of page numbers. */
  ghost predicate Strict(s: seq<Id>) {
    forall p, q | 0 <= p < q < |s| :: s[p] > s[q]
  }

  // ---------------------------------------------------------------- search

  /** `mdb_midl_search`: the position of `id`, or else the first position holding a smaller id. */
  method Search(ids: array<Id>, id: Id) returns (cursor: nat)
    requires IsList(ids[..]) && Falling(Ids(ids[..]))
    ensures 1 <= cursor <= Count(ids[..]) + 1
    ensures (cursor <= ids[0] && ids[cursor] == id)
            || (id !in Ids(ids[..])
                && (forall p | 1 <= p < cursor :: ids[p] > id)
                && (forall p | cursor <= p <= ids[0] :: ids[p] < id))
  {
    ghost var s := Ids(ids[..]);
    assert forall p | 1 <= p <= ids[0] :: s[p - 1] == ids[p];
    var base := 0;
    cursor := 1;
    var val := 0;
    var n: nat := ids[0];
    while 0 < n
      invariant base + n <= ids[0] && 1 <= cursor <= Count(ids[..]) + 1
      invariant forall p | 1 <= p <= base :: ids[p] > id
      invariant forall p | base + n < p <= ids[0] :: ids[p] < id
      invariant val == 0 ==> base == 0 && n == ids[0] && cursor == 1
      invariant val < 0 ==> cursor == base + n + 1
      invariant val > 0 ==> cursor == base
    {
      var pivot := n / 2;
      cursor := base + pivot + 1;
      val := if ids[cursor] < id then -1 else if ids[cursor] > id then 1 else 0;
      if val < 0 {
        n := pivot;
      } else if val > 0 {
        base := cursor;
        n := n - (pivot + 1);
      } else {
        return;
      }
    }
    if val > 0 {
      cursor := cursor + 1;
    }
  }

  // ---------------------------------------------------------------- merge

  /** Between the steps of the merge, with j ids of `a` and i ids of `b` left: the tail of the
      array holds what was taken from both. */
  ghost predicate Merging(s: seq<Id>, a: seq<Id>, b: seq<Id>, i: nat, j: nat, k: nat, total: nat) {
    && i <= |b| && j <= |a| && j <= k <= total < |s|
    && s[0] == ID_MAX
    && (forall p | 0 <= p < j :: s[p + 1] == a[p])
    && (forall p, q | k < p < q <= total :: s[p] >= s[q])
    && multiset(s[k + 1..total + 1]) == multiset(a[j..]) + multiset(b[i..])
    && (forall p, q | 0 <= p < j && k < q <= total :: a[p] >= s[q])
    && (forall p, q | 0 <= p < i && k < q <= total :: b[p] >= s[q])
  }

  lemma PushFront(s: seq<Id>, k: nat, total: nat, x: Id)
    requires 0 < k <= total < |s|
    ensures multiset(s[k := x][k..total + 1]) == multiset{x} + multiset(s[k + 1..total + 1])
  {
    assert s[k := x][k..total + 1] == [x] + s[k + 1..total + 1];
  }

  lemma OneMore(a: seq<Id>, j: nat)
    requires 0 < j <= |a|
    ensures multiset(a[j - 1..]) == multiset{a[j - 1]} + multiset(a[j..])
  {
    assert a[j - 1..] == [a[j - 1]] + a[j..];
  }

  lemma AllAbove(a: seq<Id>, j: nat, x: Id)
    requires Falling(a) && j <= |a| && (j > 0 ==> a[j - 1] >= x)
    ensures forall p | 0 <= p < j :: a[p] >= x
  {
    forall p | 0 <= p < j ensures a[p] >= x {
      assert p < j - 1 ==> a[p] >= a[j - 1];
    }
  }

  lemma TakeOld(s: seq<Id>, a: seq<Id>, b: seq<Id>, i: nat, j: nat, k: nat, total: nat)
    requires Merging(s, a, b, i, j, k, total) && 0 < j < k && Falling(a) && Falling(b)
    requires i > 0 ==> a[j - 1] < b[i - 1]
    ensures Merging(s[k := a[j - 1]], a, b, i, j - 1, k - 1, total)
  {
    var x := a[j - 1];
    PushFront(s, k, total, x);
    OneMore(a, j);
    AllAbove(b, i, x);
    AllAbove(a, j - 1, x);
    hide Falling;
  }

  lemma TakeNew(s: seq<Id>, a: seq<Id>, b: seq<Id>, i: nat, j: nat, k: nat, total: nat)
    requires Merging(s, a, b, i, j, k, total) && 0 < i && j < k && Falling(a) && Falling(b)
    requires j > 0 ==> a[j - 1] >= b[i - 1]
    ensures Merging(s[k := b[i - 1]], a, b, i - 1, j, k - 1, total)
  {
    var x := b[i - 1];
    PushFront(s, k, total, x);
    OneMore(b, i);
    AllAbove(a, j, x);
    AllAbove(b, i - 1, x);
    hide Falling;
  }

  /** When the second list is used up, what is left of the first is in place. */
  lemma MergeDone(s: seq<Id>, a: seq<Id>, b: seq<Id>, j: nat, total: nat)
    requires Merging(s, a, b, 0, j, j, total) && Falling(a)
    ensures Falling(s[1..total + 1]) && multiset(s[1..total + 1]) == multiset(a) + multiset(b)
  {
    var t := s[1..total + 1];
    assert t == a[..j] + s[j + 1..total + 1];
    assert a == a[..j] + a[j..] && b[0..] == b;
    assert forall p | 0 <= p < |t| :: t[p] == s[p + 1];
  }

  /** `idl[k] = old_id`, for the last id of `a` that is left. */
  method PutOld(idl: array<Id>, ghost a: seq<Id>, ghost b: seq<Id>, ghost i: nat, ghost j: nat, k: nat,
                ghost total: nat, oldId: Id)
    requires Falling(a) && Falling(b) && Merging(idl[..], a, b, i, j, k, total) && 0 < j < k
    requires oldId == a[j - 1] && (i > 0 ==> oldId < b[i - 1])
    modifies idl
    ensures Merging(idl[..], a, b, i, j - 1, k - 1, total)
    ensures forall q | total < q < idl.Length :: idl[q] == old(idl[q])
  {
    TakeOld(idl[..], a, b, i, j, k, total);
    ghost var s := idl[..][k := oldId];
    idl[k] := oldId;
    assert idl[..] == s;
  }

  /** `idl[k] = merge_id`, for the last id of `b` that is left. */
  method PutNew(idl: array<Id>, ghost a: seq<Id>, ghost b: seq<Id>, ghost i: nat, ghost j: nat, k: nat,
                ghost total: nat, mergeId: Id)
    requires Falling(a) && Falling(b) && Merging(idl[..], a, b, i, j, k, total) && 0 < i && j < k
    requires mergeId == b[i - 1] && (j > 0 ==> a[j - 1] >= mergeId)
    modifies idl
    ensures Merging(idl[..], a, b, i - 1, j, k - 1, total)
    ensures forall q | total < q < idl.Length :: idl[q] == old(idl[q])
  {
    TakeNew(idl[..], a, b, i, j, k, total);
    ghost var s := idl[..][k := mergeId];
    idl[k] := mergeId;
    assert idl[..] == s;
  }

  /** The sentinel at index 0 and the ids of `a` that are left, as the scan reads them. */
  lemma ScanReads(s: seq<Id>, a: seq<Id>, b: seq<Id>, i: nat, j: nat, k: nat, total: nat)
    requires Merging(s, a, b, i, j, k, total)
    ensures i <= |b| && j <= |a| && j < |s| && s[j] == if j == 0 then ID_MAX else a[j - 1]
  {
    if j > 0 { assert s[(j - 1) + 1] == a[j - 1]; }
  }

  /** The inner loop of the merge: move larger ids of the first list up. */
  method MoveLarger(idl: array<Id>, ghost a: seq<Id>, ghost b: seq<Id>, ghost i: nat, j0: nat, k0: nat,
                    ghost total: nat, mergeId: Id)
    returns (j: nat, k: nat)
    requires Falling(a) && Falling(b) && Merging(idl[..], a, b, i, j0, k0, total)
    requires 0 < i && k0 == i + j0 && mergeId == b[i - 1]
    modifies idl
    ensures Merging(idl[..], a, b, i, j, k, total) && k == i + j
    ensures j <= |a| && (j > 0 ==> a[j - 1] >= mergeId)
    ensures forall q | total < q < idl.Length :: idl[q] == old(idl[q])
  {
    hide Merging, Falling;
    j, k := j0, k0;
    ScanReads(idl[..], a, b, i, j, k, total);
    var oldId: Id := idl[j];
    while oldId < mergeId
      invariant Merging(idl[..], a, b, i, j, k, total) && k == i + j
      invariant j <= |a| && oldId == if j == 0 then ID_MAX else a[j - 1]
      invariant forall q | total < q < idl.Length :: idl[q] == old(idl[q])
      decreases j
    {
      PutOld(idl, a, b, i, j, k, total, oldId);
      k := k - 1;
      j := j - 1;
      ScanReads(idl[..], a, b, i, j, k, total);
      oldId := idl[j];
    }
  }

  lemma MergeStart(s: seq<Id>, a: seq<Id>, b: seq<Id>)
    requires IsList(s) && a == Ids(s) && |a| + |b| < |s|
    ensures Merging(s[0 := ID_MAX], a, b, |b|, |a|, |a| + |b|, |a| + |b|)
  {
    assert s[0 := ID_MAX][|a| + |b| + 1..|a| + |b| + 1] == [];
    assert a[|a|..] == [] && b[|b|..] == [];
  }

  lemma ListParts(s: seq<Id>)
    requires IsList(s)
    ensures |s| > 0 && s[0] < |s| && Count(s) == s[0] && |Ids(s)| == s[0]
    ensures forall p | 0 <= p < |Ids(s)| :: Ids(s)[p] == s[p + 1]
  {}

  lemma FinalList(s: seq<Id>, total: nat)
    requires total < |s| && total <= ID_MAX
    ensures var f := s[0 := total]; IsList(f) && Count(f) == total && Ids(f) == s[1..total + 1]
  {
    var f := s[0 := total];
    assert f[1..total + 1] == s[1..total + 1];
  }

  /** The loop of the merge. */
  method MergeAll(idl: array<Id>, src: array<Id>, off: nat, ghost a: seq<Id>, ghost b: seq<Id>, i0: nat, j0: nat, k0: nat)
    requires Falling(a) && Falling(b) && Merging(idl[..], a, b, i0, j0, k0, k0) && k0 == i0 + j0 && i0 == |b|
    requires off + i0 < src.Length && forall p | 0 <= p < |b| :: src[off + 1 + p] == b[p]
    requires k0 < idl.Length && (idl == src ==> k0 < off)
    modifies idl
    ensures Falling(idl[1..k0 + 1]) && multiset(idl[1..k0 + 1]) == multiset(a) + multiset(b)
    ensures forall q | k0 < q < idl.Length :: idl[q] == old(idl[q])
  {
    hide *;
    var i: nat, j: nat, k: nat := i0, j0, k0;
    while i > 0
      invariant Merging(idl[..], a, b, i, j, k, k0) && k == i + j
      invariant forall q | k0 < q < idl.Length :: idl[q] == old(idl[q])
      invariant i <= |b| && forall p | 0 <= p < |b| :: src[off + 1 + p] == b[p]
    {
      var mergeId: Id := src[off + i];
      assert mergeId == b[i - 1] by { assert src[off + 1 + (i - 1)] == b[i - 1]; }
      j, k := MoveLarger(idl, a, b, i, j, k, k0, mergeId);
      PutNew(idl, a, b, i, j, k, k0, mergeId);
      i := i - 1;
      k := k - 1;
    }
    MergeDone(idl[..], a, b, j, k0);
    assert idl[..][1..k0 + 1] == idl[1..k0 + 1];
  }

  /** `mdb_midl_xmerge`: merge the list at src[off..] into `idl`, in place and from the back.
      The list may sit at the top of the same array as long as the merged list ends below it. */
  method XMerge(idl: array<Id>, src: array<Id>, off: nat)
    requires IsList(idl[..]) && Falling(Ids(idl[..]))
    requires off < src.Length && IsList(src[off..]) && Falling(Ids(src[off..]))
    requires Count(idl[..]) + Count(src[off..]) < idl.Length <= ID_MAX
    requires idl == src ==> Count(idl[..]) + Count(src[off..]) < off
    modifies idl
    ensures IsList(idl[..]) && Count(idl[..]) == old(Count(idl[..]) + Count(src[off..]))
    ensures Falling(Ids(idl[..]))
    ensures multiset(Ids(idl[..])) == old(multiset(Ids(idl[..])) + multiset(Ids(src[off..])))
    ensures forall q | Count(idl[..]) < q < idl.Length :: idl[q] == old(idl[q])
  {
    hide *;
    ghost var s0: seq<Id>, b: seq<Id> := idl[..], Ids(src[off..]);
    ghost var a := Ids(s0);
    ListParts(s0);
    ListParts(src[off..]);
    var i: nat, j: nat := src[off], idl[0];
    var k: nat := i + j;
    var total: nat := k;
    MergeStart(s0, a, b);
    idl[0] := ID_MAX;
    assert idl[..] == s0[0 := ID_MAX];
    MergeAll(idl, src, off, a, b, i, j, k);
    ghost var s: seq<Id> := idl[..];
    idl[0] := total;
    assert idl[..] == s[0 := total];
    FinalList(s, total);
  }
}
