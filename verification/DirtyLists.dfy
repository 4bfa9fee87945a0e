/** Dirty lists (midl.c, mdb.c): arrays of page numbers with pages, in ascending order, and what
    the commit of a nested transaction does with them in place. */
module DirtyLists {
  import opened Options
  import opened IdSort
  import Seqs

  /** An entry: a page number and where the page is. */
  datatype Id2 = Id2(mid: Id, ptr: nat)

  /** Element 0 holds the count. */
  ghost predicate IsList2(s: seq<Id2>) {
    |s| > 0 && s[0].mid < |s|
  }

  function Entries(s: seq<Id2>): (r: seq<Id2>)
    requires IsList2(s)
    ensures |r| == s[0].mid
  {
    s[1..s[0].mid + 1]
  }

  /** Strictly ascending page numbers, none of them 0. */
  ghost predicate Rising(s: seq<Id2>) {
    && (forall p | 0 <= p < |s| :: s[p].mid > 0)
    && (forall p, q | 0 <= p < q < |s| :: s[p].mid < s[q].mid)
  }

  /** What the list says about page p. */
  ghost function Get(s: seq<Id2>, p: Id): Option<nat> {
    if s == [] then None
    else if s[|s| - 1].mid == p then Some(s[|s| - 1].ptr)
    else Get(s[..|s| - 1], p)
  }

  lemma {:induction false} GetNone(s: seq<Id2>, p: Id)
    requires forall q | 0 <= q < |s| :: s[q].mid != p
    ensures Get(s, p) == None
  {
    if s != [] { GetNone(s[..|s| - 1], p); }
  }

  lemma {:induction false} GetAt(s: seq<Id2>, q: nat)
    requires Rising(s) && q < |s|
    ensures Get(s, s[q].mid) == Some(s[q].ptr)
  {
    if q < |s| - 1 { GetAt(s[..|s| - 1], q); }
  }

  /** Found and not found, by position. */
  lemma GetIs(s: seq<Id2>, p: Id)
    requires Rising(s)
    ensures forall q | 0 <= q < |s| && s[q].mid == p :: Get(s, p) == Some(s[q].ptr)
    ensures (forall q | 0 <= q < |s| :: s[q].mid != p) <==> Get(s, p) == None
  {
    if forall q | 0 <= q < |s| :: s[q].mid != p {
      GetNone(s, p);
    } else {
      var q :| 0 <= q < |s| && s[q].mid == p;
      GetAt(s, q);
    }
  }

  // ---------------------------------------------------------------- search, insert

  /** `mdb_mid2l_search`: the position of `id`, or of the first larger page number. */
  method Search2(ids: array<Id2>, id: Id) returns (cursor: nat)
    requires IsList2(ids[..]) && Rising(Entries(ids[..]))
    ensures 1 <= cursor <= ids[0].mid + 1
    ensures forall q | 1 <= q < cursor :: ids[q].mid < id
    ensures forall q | cursor < q <= ids[0].mid :: id < ids[q].mid
    ensures cursor <= ids[0].mid ==> id <= ids[cursor].mid
  {
    ghost var s := Entries(ids[..]);
    assert forall p | 1 <= p <= ids[0].mid :: s[p - 1] == ids[p];
    var base := 0;
    cursor := 1;
    var val := 0;
    var n: nat := ids[0].mid;
    while 0 < n
      invariant base + n <= ids[0].mid && 1 <= cursor <= ids[0].mid + 1
      invariant forall p | 1 <= p <= base :: ids[p].mid < id
      invariant forall p | base + n < p <= ids[0].mid :: id < ids[p].mid
      invariant val == 0 ==> base == 0 && n == ids[0].mid && cursor == 1
      invariant val < 0 ==> cursor == base + n + 1
      invariant val > 0 ==> cursor == base
    {
      var pivot := n / 2;
      cursor := base + pivot + 1;
      val := if id < ids[cursor].mid then -1 else if id > ids[cursor].mid then 1 else 0;
      if val < 0 {
        n := pivot;
      } else if val > 0 {
        base := cursor;
        n := n - (pivot + 1);
      } else {
        return;
      }
    }
    if val > 0 {
      cursor := cursor + 1;
    }
  }

  // ---------------------------------------------------------------- merging

  /** The sorted union of two lists, the second one winning. */
  ghost function Union(a: seq<Id2>, b: seq<Id2>): seq<Id2>
    decreases |a| + |b|
  {
    if b == [] then a
    else
      var n, y := |a| - 1, b[|b| - 1];
      if a != [] && y.mid < a[n].mid then Union(a[..n], b) + [a[n]]
      else if a != [] && y.mid == a[n].mid then Union(a[..n], b[..|b| - 1]) + [y]
      else Union(a, b[..|b| - 1]) + [y]
  }

  /** Entries of both lists. */
  ghost function Common(a: seq<Id2>, b: seq<Id2>): nat
    decreases |a| + |b|
  {
    if a == [] || b == [] then 0
    else
      var n, m := |a| - 1, |b| - 1;
      if b[m].mid < a[n].mid then Common(a[..n], b)
      else if b[m].mid == a[n].mid then Common(a[..n], b[..m]) + 1
      else Common(a, b[..m])
  }

  lemma {:induction false} UnionSize(a: seq<Id2>, b: seq<Id2>)
    ensures |Union(a, b)| == |a| + |b| - Common(a, b)
    ensures |a| <= |Union(a, b)|
    decreases |a| + |b|
  {
    if b != [] && a != [] {
      var n, m := |a| - 1, |b| - 1;
      if b[m].mid < a[n].mid {
        UnionSize(a[..n], b);
      } else if b[m].mid == a[n].mid {
        UnionSize(a[..n], b[..m]);
      } else {
        UnionSize(a, b[..m]);
      }
    } else if b != [] {
      UnionSize(a, b[..|b| - 1]);
    }
  }

  /** All page numbers of the union are below x when those of both lists are. */
  lemma {:induction false} UnionBelow(a: seq<Id2>, b: seq<Id2>, x: Id)
    requires (forall p | 0 <= p < |a| :: 0 < a[p].mid < x) && (forall p | 0 <= p < |b| :: 0 < b[p].mid < x)
    ensures forall p | 0 <= p < |Union(a, b)| :: 0 < Union(a, b)[p].mid < x
    decreases |a| + |b|
  {
    if b != [] {
      var n, m := |a| - 1, |b| - 1;
      if a != [] && b[m].mid < a[n].mid {
        UnionBelow(a[..n], b, x);
      } else if a != [] && b[m].mid == a[n].mid {
        UnionBelow(a[..n], b[..m], x);
      } else {
        UnionBelow(a, b[..m], x);
      }
    }
  }

  lemma RisingSnoc(s: seq<Id2>, e: Id2)
    requires Rising(s) && e.mid > 0 && forall p | 0 <= p < |s| :: s[p].mid < e.mid
    ensures Rising(s + [e])
  {}

  lemma {:induction false} UnionRises(a: seq<Id2>, b: seq<Id2>)
    requires Rising(a) && Rising(b)
    ensures Rising(Union(a, b))
    decreases |a| + |b|
  {
    if b != [] {
      var n, m := |a| - 1, |b| - 1;
      if a != [] && b[m].mid < a[n].mid {
        UnionRises(a[..n], b);
        UnionBelow(a[..n], b, a[n].mid);
        RisingSnoc(Union(a[..n], b), a[n]);
      } else if a != [] && b[m].mid == a[n].mid {
        UnionRises(a[..n], b[..m]);
        UnionBelow(a[..n], b[..m], b[m].mid);
        RisingSnoc(Union(a[..n], b[..m]), b[m]);
      } else {
        UnionRises(a, b[..m]);
        UnionBelow(a, b[..m], b[m].mid);
        RisingSnoc(Union(a, b[..m]), b[m]);
      }
    }
  }

  lemma GetLast(s: seq<Id2>, p: Id)
    requires s != []
    ensures Get(s, p) == if s[|s| - 1].mid == p then Some(s[|s| - 1].ptr) else Get(s[..|s| - 1], p)
  {}

  lemma RisingInit(s: seq<Id2>)
    requires Rising(s) && s != []
    ensures Rising(s[..|s| - 1]) && s[|s| - 1].mid > 0
    ensures forall q | 0 <= q < |s| - 1 :: s[q].mid < s[|s| - 1].mid
  {}

  /** The last entry of the union, and the union of the rest. */
  lemma UnionLast(a: seq<Id2>, b: seq<Id2>)
    requires b != []
    ensures var n, m := |a| - 1, |b| - 1;
            && (a != [] && b[m].mid < a[n].mid ==> Union(a, b) == Union(a[..n], b) + [a[n]])
            && (a != [] && b[m].mid == a[n].mid ==> Union(a, b) == Union(a[..n], b[..m]) + [b[m]])
            && (a == [] || a[n].mid < b[m].mid ==> Union(a, b) == Union(a, b[..m]) + [b[m]])
  {}

  /** The union as a map: the second list's entry, or else the first list's. */
  lemma {:induction false} UnionGet(a: seq<Id2>, b: seq<Id2>, p: Id)
    requires Rising(a) && Rising(b)
    ensures Get(Union(a, b), p) == if Get(b, p).Some? then Get(b, p) else Get(a, p)
    decreases |a| + |b|
  {
    if b == [] {
      GetNone(b, p);
      assert Union(a, b) == a;
    } else {
      hide Union, Get, Rising;
      UnionLast(a, b);
      GetLast(b, p);
      RisingInit(b);
      var n, m := |a| - 1, |b| - 1;
      if a != [] {
        GetLast(a, p);
        RisingInit(a);
      }
      if a != [] && b[m].mid < a[n].mid {
        UnionGet(a[..n], b, p);
        if p == a[n].mid { GetNone(b, p); }
        GetSnoc(Union(a[..n], b), a[n], p);
      } else if a != [] && b[m].mid == a[n].mid {
        UnionGet(a[..n], b[..m], p);
        GetSnoc(Union(a[..n], b[..m]), b[m], p);
      } else {
        UnionGet(a, b[..m], p);
        GetSnoc(Union(a, b[..m]), b[m], p);
      }
    }
  }

  lemma GetSnoc(s: seq<Id2>, e: Id2, p: Id)
    ensures Get(s + [e], p) == if e.mid == p then Some(e.ptr) else Get(s, p)
  {
    assert (s + [e])[..|s|] == s;
  }

  /** Between the steps of the merge: x entries of `a` and y of `b` are left, the union of the rest
      is in place above i. */
  ghost predicate Merging2(s: seq<Id2>, a: seq<Id2>, b: seq<Id2>, x: nat, y: nat, i: nat, len: nat) {
    && x <= |a| && y <= |b| && x <= i <= len < |s| && s[0].mid == 0
    && i == |Union(a[..x], b[..y])| && len == |Union(a, b)|
    && s[1..x + 1] == a[..x]
    && Union(a, b) == Union(a[..x], b[..y]) + s[i + 1..len + 1]
  }

  lemma MergeStart2(s: seq<Id2>, a: seq<Id2>, b: seq<Id2>, len: nat)
    requires IsList2(s) && Entries(s) == a && len == |Union(a, b)| < |s|
    ensures Merging2(s[0 := Id2(0, s[0].ptr)], a, b, |a|, |b|, len, len)
  {
    UnionSize(a, b);
    assert a[..|a|] == a && b[..|b|] == b;
    var t := s[0 := Id2(0, s[0].ptr)];
    assert t[len + 1..len + 1] == [];
    assert t[1..|a| + 1] == a;
  }

  /** Putting an entry at i, where it belongs, leaves one less to merge. */
  lemma PutEntry(s: seq<Id2>, a: seq<Id2>, b: seq<Id2>, x: nat, y: nat, i: nat, len: nat, x': nat, y': nat, e: Id2)
    requires Merging2(s, a, b, x, y, i, len) && x' <= x && y' <= y
    requires Union(a[..x], b[..y]) == Union(a[..x'], b[..y']) + [e]
    ensures i > 0 && Merging2(s[i := e], a, b, x', y', i - 1, len)
  {
    hide Union;
    var t, u := s[i := e], Union(a[..x'], b[..y']);
    UnionSize(a[..x'], b[..y']);
    assert i == |u| + 1;
    assert t[i..len + 1] == [e] + s[i + 1..len + 1];
    Seqs.Assoc(u, [e], s[i + 1..len + 1]);
    assert t[1..x' + 1] == s[1..x + 1][..x'] == a[..x'];
  }

  lemma UnionStep(a: seq<Id2>, b: seq<Id2>, x: nat, y: nat)
    requires x <= |a| && 0 < y <= |b|
    ensures x > 0 && b[y - 1].mid < a[x - 1].mid ==>
              Union(a[..x], b[..y]) == Union(a[..x - 1], b[..y]) + [a[x - 1]]
    ensures x > 0 && b[y - 1].mid == a[x - 1].mid ==>
              Union(a[..x], b[..y]) == Union(a[..x - 1], b[..y - 1]) + [b[y - 1]]
    ensures x == 0 || b[y - 1].mid > a[x - 1].mid ==>
              Union(a[..x], b[..y]) == Union(a[..x], b[..y - 1]) + [b[y - 1]]
  {
    assert b[..y][..y - 1] == b[..y - 1];
    if x > 0 { assert a[..x][..x - 1] == a[..x - 1]; }
  }

  /** The last entry left of the first list, or the delimiter. */
  lemma LastOld(s: seq<Id2>, a: seq<Id2>, b: seq<Id2>, x: nat, y: nat, i: nat, len: nat)
    requires Merging2(s, a, b, x, y, i, len)
    ensures x <= |a| && y <= |b| && x <= i <= len < |s|
    ensures if x == 0 then s[x].mid == 0 else s[x] == a[x - 1]
  {
    if x > 0 { assert s[x] == s[1..x + 1][x - 1]; }
  }

  /** Merge `src` into `dst` in place, from the back: `len` is the length of the result. */
  method Merge2(dst: array<Id2>, src: array<Id2>, len: nat)
    requires dst != src && IsList2(dst[..]) && IsList2(src[..])
    requires Rising(Entries(dst[..])) && Rising(Entries(src[..]))
    requires len == |Union(Entries(dst[..]), Entries(src[..]))| < dst.Length <= ID_MAX
    modifies dst
    ensures IsList2(dst[..]) && Entries(dst[..]) == old(Union(Entries(dst[..]), Entries(src[..])))
  {
    hide Union, Merging2;
    ghost var a, b := Entries(dst[..]), Entries(src[..]);
    assert forall q | 0 <= q < |b| :: src[q + 1] == b[q];
    MergeStart2(dst[..], a, b, len);
    var x: nat, y: nat, i: nat := dst[0].mid, src[0].mid, len;
    ghost var t := dst[..][0 := Id2(0, dst[0].ptr)];
    dst[0] := Id2(0, dst[0].ptr);
    assert dst[..] == t;
    while y > 0
      invariant y <= |b| && Merging2(dst[..], a, b, x, y, i, len)
      invariant forall q | 0 <= q < |b| :: src[q + 1] == b[q]
    {
      var e := src[y];
      assert e == src[(y - 1) + 1] == b[y - 1];
      x, i := MoveLarger2(dst, a, b, x, y, i, len, e.mid);
      LastOld(dst[..], a, b, x, y, i, len);
      ghost var was := x;
      if e.mid == dst[x].mid {
        x := x - 1;
      }
      UnionStep(a, b, was, y);
      PutEntry(dst[..], a, b, was, y, i, len, x, y - 1, e);
      t := dst[..][i := e];
      dst[i] := e;
      assert dst[..] == t;
      i, y := i - 1, y - 1;
    }
    MergeEnd2(dst[..], a, b, x, i, len);
    t := dst[1..len + 1];
    dst[0] := Id2(len, dst[0].ptr);
    assert dst[..][1..len + 1] == t;
  }

  lemma MergeEnd2(s: seq<Id2>, a: seq<Id2>, b: seq<Id2>, x: nat, i: nat, len: nat)
    requires Merging2(s, a, b, x, 0, i, len)
    ensures i == x && s[1..len + 1] == Union(a, b)
  {
    assert b[..0] == [];
    assert s[1..len + 1] == s[1..x + 1] + s[x + 1..len + 1];
  }

  /** Entries of the first list above `yp` move up. */
  method MoveLarger2(dst: array<Id2>, ghost a: seq<Id2>, ghost b: seq<Id2>, x0: nat, ghost y: nat, i0: nat,
                     ghost len: nat, yp: Id) returns (x: nat, i: nat)
    requires Merging2(dst[..], a, b, x0, y, i0, len) && 0 < y <= |b| && yp == b[y - 1].mid
    modifies dst
    ensures Merging2(dst[..], a, b, x, y, i, len) && x <= |a| && (x > 0 ==> a[x - 1].mid <= yp)
  {
    hide Union, Merging2;
    x, i := x0, i0;
    LastOld(dst[..], a, b, x, y, i, len);
    while yp < dst[x].mid
      invariant Merging2(dst[..], a, b, x, y, i, len)
      invariant x <= |a| && x <= i < dst.Length && if x == 0 then dst[x].mid == 0 else dst[x] == a[x - 1]
      decreases x
    {
      UnionStep(a, b, x, y);
      PutEntry(dst[..], a, b, x, y, i, len, x - 1, y, a[x - 1]);
      ghost var t := dst[..][i := dst[x]];
      dst[i] := dst[x];
      assert dst[..] == t;
      x, i := x - 1, i - 1;
      LastOld(dst[..], a, b, x, y, i, len);
    }
  }

  // ---------------------------------------------------------------- counting

  lemma CommonStep(a: seq<Id2>, b: seq<Id2>, x: nat, y: nat)
    requires 0 < x <= |a| && 0 < y <= |b|
    ensures b[y - 1].mid < a[x - 1].mid ==> Common(a[..x], b[..y]) == Common(a[..x - 1], b[..y])
    ensures b[y - 1].mid == a[x - 1].mid ==> Common(a[..x], b[..y]) == Common(a[..x - 1], b[..y - 1]) + 1
    ensures b[y - 1].mid > a[x - 1].mid ==> Common(a[..x], b[..y]) == Common(a[..x], b[..y - 1])
  {
    assert b[..y][..y - 1] == b[..y - 1] && a[..x][..x - 1] == a[..x - 1];
  }

  /** Entries of the second list above all of the first have no part in it. */
  lemma {:induction false} CommonTop(a: seq<Id2>, b: seq<Id2>, y: nat)
    requires y <= |b| && forall q | y <= q < |b| :: forall p | 0 <= p < |a| :: a[p].mid < b[q].mid
    ensures Common(a, b) == Common(a, b[..y])
    decreases |b|
  {
    if y < |b| {
      CommonTop(a, b[..|b| - 1], y);
      assert b[..|b| - 1][..y] == b[..y];
    } else {
      assert b[..y] == b;
    }
  }

  /** Entries of the second list above the last of the first are in it alone. */
  lemma TopOnly(a: seq<Id2>, b: seq<Id2>, y: nat, top: Id)
    requires Rising(a) && y <= |b| && top == if a == [] then 0 else a[|a| - 1].mid
    requires forall q | y <= q < |b| :: top < b[q].mid
    ensures Common(a, b) == Common(a, b[..y])
  {
    forall q, p | y <= q < |b| && 0 <= p < |a| ensures a[p].mid < b[q].mid {
      assert a[p].mid <= top;
    }
    CommonTop(a, b, y);
  }

  /** Counting entry y of the second list, when what is left of the first is not above it. */
  lemma CountStep(a: seq<Id2>, b: seq<Id2>, i: nat, y: nat)
    requires i <= |a| && 0 < y <= |b| && (i > 0 ==> a[i - 1].mid <= b[y - 1].mid)
    ensures Common(a[..i], b[..y])
            == if i > 0 && a[i - 1].mid == b[y - 1].mid then Common(a[..i - 1], b[..y - 1]) + 1 else Common(a[..i], b[..y - 1])
  {
    if i > 0 { CommonStep(a, b, i, y); }
  }

  lemma Positive(s: seq<Id2>)
    requires Rising(s)
    ensures forall q | 0 <= q < |s| :: s[q].mid > 0
  {}

  lemma NoCommon(a: seq<Id2>, b: seq<Id2>, i: nat, y: nat)
    requires i <= |a| && y <= |b| && (i == 0 || y == 0)
    ensures Common(a[..i], b[..y]) == 0
  {}

  /** The length of the merged list, counted when the parent has a parent itself. */
  method CountUnion(dst: array<Id2>, src: array<Id2>) returns (len: nat)
    requires dst != src && IsList2(dst[..]) && IsList2(src[..])
    requires Rising(Entries(dst[..])) && Rising(Entries(src[..]))
    requires forall q | 0 <= q < |Entries(dst[..])| :: Entries(dst[..])[q].mid < ID_MAX
    modifies dst
    ensures len == old(|Union(Entries(dst[..]), Entries(src[..]))|) && dst[..] == old(dst[..])
  {
    hide Union, Common, Rising;
    ghost var a, b := Entries(dst[..]), Entries(src[..]);
    assert forall q | 0 <= q < |a| :: dst[q + 1] == a[q];
    assert forall q | 0 <= q < |b| :: src[q + 1] == b[q];
    Positive(b);
    assert forall q | 1 <= q <= |b| :: src[q] == b[q - 1];
    var count := dst[0];
    var x: nat := count.mid;
    dst[0] := Id2(0, count.ptr);
    ghost var w := dst[..];
    assert w[0].mid == 0 && forall q | 1 <= q <= |a| :: w[q] == a[q - 1];
    UnionSize(a, b);
    var n: int := x + src[0].mid;
    var y := Search2(src, dst[x].mid + 1);
    y := y - 1;
    TopOnly(a, b, y, if x == 0 then 0 else a[x - 1].mid);
    var i := x;
    assert a[..x] == a;
    while y > 0 && i > 0
      invariant 0 <= y <= |b| && 0 <= i <= x == |a|
      invariant n == |a| + |b| - Common(a, b) + Common(a[..i], b[..y])
      invariant dst[..] == w && src[..] == old(src[..])
      decreases y
    {
      var yp := src[y].mid;
      assert src[y] == b[y - 1];
      while yp < dst[i].mid
        invariant dst[..] == w && src[..] == old(src[..])
        invariant 0 <= i <= x && n == |a| + |b| - Common(a, b) + Common(a[..i], b[..y])
        decreases i
      {
        assert dst[i] == w[i];
        CommonStep(a, b, i, y);
        i := i - 1;
      }
      CountStep(a, b, i, y);
      assert dst[i] == w[i];
      if yp == dst[i].mid {
        i, n := i - 1, n - 1;
      }
      y := y - 1;
    }
    NoCommon(a, b, i, y);
    len := n;
    dst[0] := count;
    assert dst[..] == old(dst[..]);
  }
}
