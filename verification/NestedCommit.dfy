/** Committing a nested transaction into its parent (mdb_txn_commit, mdb.c): the dirty and spill
    lists of the two are reconciled in place, and the parent then sees what the child saw. */
module NestedCommit {
  import opened Options
  import opened IdSort
  import opened IdLists
  import opened PageLists
  import opened DirtyLists
  import Seqs

  /** A spill list: page numbers doubled, largest first; odd entries are deleted slots. */
  ghost predicate SpillOk(s: seq<Id>) {
    forall p, q | 0 <= p < q < |s| :: s[p] >= s[q] && (s[p] == s[q] ==> s[p] % 2 == 1)
  }

  /** Page p is on the spill list. */
  ghost predicate Spilled(s: seq<Id>, p: Id) {
    exists q :: 0 <= q < |s| && s[q] == 2 * p
  }

  // ---------------------------------------------------------------- the child's dirty pages leave the parent's spill list

  ghost predicate Matches(b: seq<Id2>, k: nat, v: Id)
    requires k <= |b|
  {
    exists j :: 0 <= j < k && 2 * b[j].mid == v
  }

  /** The first k dirty pages are dealt with; entries up to x are still larger than they are, those
      after it are at most `top`. */
  ghost predicate Marking(m: seq<Id>, s: seq<Id>, b: seq<Id2>, k: nat, x: nat, y: nat, top: int) {
    && |m| == |s| && k <= |b| && x <= y <= |s|
    && (forall q | 0 <= q < x :: m[q] == s[q])
    && (forall q | x <= q < |s| :: m[q] == if Matches(b, k, s[q]) then 1 else s[q])
    && (forall q, j | 0 <= q < x && 0 <= j < k :: s[q] > 2 * b[j].mid)
    && (forall q | x <= q < |s| :: s[q] <= top)
    && (forall q | x <= q < y :: m[q] == s[q])
  }

  lemma MarkSkip(m: seq<Id>, s: seq<Id>, b: seq<Id2>, k: nat, x: nat, y: nat, top: int)
    requires Marking(m, s, b, k, x, y, top) && 0 < x && s[x - 1] <= top
    ensures Marking(m, s, b, k, x - 1, y, top)
  {
    forall j | 0 <= j < k ensures 2 * b[j].mid != s[x - 1] {
      assert s[x - 1] > 2 * b[j].mid;
    }
  }

  /** The next dirty page, when no entry left is smaller than it. */
  lemma MarkNext(m: seq<Id>, s: seq<Id>, b: seq<Id2>, k: nat, x: nat, y: nat, pn: Id)
    requires Marking(m, s, b, k, x, y, pn - 1) && SpillOk(s) && k < |b| && pn == 2 * b[k].mid
    requires x > 0 ==> s[x - 1] >= pn
    ensures x > 0 && s[x - 1] == pn ==> Marking(m[x - 1 := 1], s, b, k + 1, x - 1, x - 1, pn)
    ensures x == 0 || s[x - 1] != pn ==> Marking(m, s, b, k + 1, x, y, pn)
  {
    forall q | 0 <= q < |s| ensures Matches(b, k + 1, s[q]) <==> Matches(b, k, s[q]) || s[q] == pn {
      if s[q] == pn { assert 2 * b[k].mid == s[q]; }
    }
    forall q | 0 <= q < x ensures s[q] >= pn && (s[q] == pn ==> q == x - 1) {
      if q < x - 1 { assert s[q] >= s[x - 1] && (s[q] == s[x - 1] ==> s[q] % 2 == 1); }
    }
    assert x > 0 && s[x - 1] == pn ==> Matches(b, k + 1, s[x - 1]);
  }

  lemma MarkRise(m: seq<Id>, s: seq<Id>, b: seq<Id2>, k: nat, x: nat, y: nat, top: int, top': int)
    requires Marking(m, s, b, k, x, y, top) && top <= top'
    ensures Marking(m, s, b, k, x, y, top')
  {}

  /** Every entry of a dirty page is marked. */
  ghost predicate Marked(m: seq<Id>, s: seq<Id>, b: seq<Id2>) {
    |m| == |s| && forall q | 0 <= q < |s| :: m[q] == if Matches(b, |b|, s[q]) then 1 else s[q]
  }

  lemma MarkEnd(m: seq<Id>, s: seq<Id>, b: seq<Id2>, x: nat, y: nat, top: int)
    requires Marking(m, s, b, |b|, x, y, top)
    ensures Marked(m, s, b) && y <= |s| && forall q | 0 <= q < y :: m[q] == s[q]
  {
    forall q | 0 <= q < x ensures !Matches(b, |b|, s[q]) {
      forall j | 0 <= j < |b| ensures 2 * b[j].mid != s[q] {
        assert s[q] > 2 * b[j].mid;
      }
    }
  }

  /** What the list reads at position x: the delimiter, or an entry. */
  lemma MarkRead(w: seq<Id>, m: seq<Id>, s: seq<Id>, b: seq<Id2>, k: nat, x: nat, y: nat, top: int)
    requires Marking(m, s, b, k, x, y, top) && |s| < |w| && w[0] == ID_MAX && m == w[1..|s| + 1]
    ensures x < |w| && w[x] == if x == 0 then ID_MAX else s[x - 1]
  {
    if x > 0 { assert w[x] == m[x - 1]; }
  }

  /** Past the entries that are smaller than the page looked for. */
  method SkipSmaller(pspill: array<Id>, ghost n: nat, ghost s: seq<Id>, ghost b: seq<Id2>, ghost k: nat, x0: nat, ghost y: nat, pn: Id)
    returns (x: nat)
    requires n == |s| < pspill.Length && pspill[0] == ID_MAX && Marking(pspill[1..n + 1], s, b, k, x0, y, pn - 1)
    ensures x <= n && pspill[x] >= pn && pspill[x] == if x == 0 then ID_MAX else s[x - 1]
    ensures Marking(pspill[1..n + 1], s, b, k, x, y, pn - 1)
  {
    hide Marking;
    x := x0;
    ghost var w, m := pspill[..n + 1], pspill[1..n + 1];
    MarkRead(w, m, s, b, k, x, y, pn - 1);
    while pn > pspill[x]
      invariant Marking(m, s, b, k, x, y, pn - 1)
      invariant x <= n && pspill[x] == if x == 0 then ID_MAX else s[x - 1]
      decreases x
    {
      MarkSkip(m, s, b, k, x, y, pn - 1);
      x := x - 1;
      MarkRead(w, m, s, b, k, x, y, pn - 1);
    }
  }

  /** First loop: mark the entries of the child's dirty pages as deleted; before y there are none. */
  method MarkDeleted(pspill: array<Id>, src: array<Id2>) returns (y: nat)
    requires IsList(pspill[..]) && SpillOk(Ids(pspill[..]))
    requires IsList2(src[..]) && Rising(Entries(src[..])) && forall q | 0 <= q < |Entries(src[..])| :: 2 * Entries(src[..])[q].mid < ID_MAX
    modifies pspill
    ensures pspill[0] == ID_MAX && old(Count(pspill[..])) < pspill.Length
    ensures Marked(pspill[1..old(Count(pspill[..])) + 1], old(Ids(pspill[..])), Entries(src[..]))
    ensures y <= old(Count(pspill[..])) && pspill[1..y + 1] == old(Ids(pspill[..]))[..y]
  {
    hide Marking, SpillOk, Marked, Matches, Rising;
    ghost var s, b := Ids(pspill[..]), Entries(src[..]);
    assert forall q | 1 <= q <= |b| :: src[q] == b[q - 1];
    var x: nat := pspill[0];
    y := x;
    MarkStart(s, b);
    ghost var top, n: nat := 0, x;
    pspill[0] := ID_MAX;
    assert pspill[1..n + 1] == s;
    var i: nat, len: nat := 0, src[0].mid;
    while i < len
      invariant 0 <= i <= len == |b| && n == |s| < pspill.Length && pspill[0] == ID_MAX
      invariant src[..] == old(src[..])
      invariant Marking(pspill[1..n + 1], s, b, i, x, y, top)
      invariant top == if i == 0 then 0 else 2 * b[i - 1].mid
    {
      i := i + 1;
      var pn: Id := 2 * src[i].mid;
      NextLarger(b, i - 1, top);
      MarkRise(pspill[1..n + 1], s, b, i - 1, x, y, top, pn - 1);
      x := SkipSmaller(pspill, n, s, b, i - 1, x, y, pn);
      MarkNext(pspill[1..n + 1], s, b, i - 1, x, y, pn);
      if pn == pspill[x] {
        ghost var m := pspill[1..n + 1][x - 1 := 1];
        pspill[x] := 1;
        assert pspill[1..n + 1] == m;
        x := x - 1;
        y := x;
      }
      top := pn;
    }
    MarkEnd(pspill[1..n + 1], s, b, x, y, top);
    assert pspill[1..y + 1] == pspill[1..n + 1][..y];
  }

  lemma MarkStart(s: seq<Id>, b: seq<Id2>)
    ensures Marking(s, s, b, 0, |s|, |s|, 0)
  {}

  lemma NextLarger(b: seq<Id2>, k: nat, top: int)
    requires Rising(b) && k < |b| && top == if k == 0 then 0 else 2 * b[k - 1].mid
    ensures top <= 2 * b[k].mid - 1
  {}

  // ---------------------------------------------------------------- squashing deleted slots

  ghost function Evens(m: seq<Id>): seq<Id> {
    if m == [] then []
    else Evens(m[..|m| - 1]) + if m[|m| - 1] % 2 == 0 then [m[|m| - 1]] else []
  }

  lemma {:induction false} EvensIs(m: seq<Id>)
    ensures |Evens(m)| <= |m|
    ensures forall v :: v in Evens(m) <==> v in m && v % 2 == 0
  {
    if m != [] {
      var k := |m| - 1;
      EvensIs(m[..k]);
      assert m == m[..k] + [m[k]];
    }
  }

  /** Entries up to x are dealt with: the even ones from y0 on stand in front, up to y. */
  ghost predicate Squashing(s: seq<Id>, w: seq<Id>, y0: nat, y: nat, x: nat, n: nat) {
    && |s| == |w| && y0 <= y <= x <= n < |w|
    && s[1..y + 1] == w[1..y0 + 1] + Evens(w[y0 + 1..x + 1])
    && (forall q | x < q < |w| :: s[q] == w[q])
  }

  lemma SquashStart(w: seq<Id>, y0: nat, n: nat)
    requires y0 <= n < |w|
    ensures Squashing(w, w, y0, y0, y0, n)
  {
    assert w[y0 + 1..y0 + 1] == [];
    assert w[1..y0 + 1] + [] == w[1..y0 + 1];
  }

  lemma SquashStep(s: seq<Id>, w: seq<Id>, y0: nat, y: nat, x: nat, n: nat)
    requires Squashing(s, w, y0, y, x, n) && x < n
    ensures s[x + 1] == w[x + 1]
    ensures w[x + 1] % 2 == 0 ==> Squashing(s[y + 1 := s[x + 1]], w, y0, y + 1, x + 1, n)
    ensures w[x + 1] % 2 == 1 ==> Squashing(s, w, y0, y, x + 1, n)
  {
    hide Evens;
    var v := w[x + 1];
    assert w[y0 + 1..x + 2] == w[y0 + 1..x + 1] + [v];
    EvensSnoc(w[y0 + 1..x + 1], v);
    if v % 2 == 0 {
      assert s[y + 1 := v][1..y + 2] == s[1..y + 1] + [v];
      Seqs.Assoc(w[1..y0 + 1], Evens(w[y0 + 1..x + 1]), [v]);
    } else {
      assert Evens(w[y0 + 1..x + 1]) + [] == Evens(w[y0 + 1..x + 1]);
    }
  }

  lemma SquashEnd(s: seq<Id>, w: seq<Id>, y0: nat, y: nat, n: nat)
    requires Squashing(s, w, y0, y, n, n)
    ensures |s| == |w| && y <= n < |s| && s[1..y + 1] == w[1..y0 + 1] + Evens(w[y0 + 1..n + 1])
  {
    hide Evens;
  }

  /** The count is set to the ids in front. */
  lemma CountSet(s: seq<Id>, y: nat)
    requires y < |s| && y <= ID_MAX
    ensures IsList(s[0 := y]) && Ids(s[0 := y]) == s[1..y + 1]
  {
    assert s[0 := y][1..y + 1] == s[1..y + 1];
  }

  lemma TwoCuts(w: seq<Id>, y0: nat, n: nat)
    requires y0 <= n < |w|
    ensures w[1..n + 1][y0..] == w[y0 + 1..n + 1]
  {}

  /** Second loop: close the gaps. */
  method Squash(pspill: array<Id>, y0: nat, n: nat)
    requires y0 <= n < pspill.Length <= ID_MAX
    modifies pspill
    ensures IsList(pspill[..])
    ensures Ids(pspill[..]) == old(pspill[1..y0 + 1] + Evens(pspill[1..n + 1][y0..]))
  {
    hide *;
    ghost var w := pspill[..];
    TwoCuts(w, y0, n);
    assert pspill[1..n + 1] == w[1..n + 1] && pspill[1..y0 + 1] == w[1..y0 + 1];
    var y, x := y0, y0;
    SquashStart(w, y0, n);
    while x < n
      invariant y0 <= y <= x <= n && Squashing(pspill[..], w, y0, y, x, n)
    {
      SquashStep(pspill[..], w, y0, y, x, n);
      x := x + 1;
      if pspill[x] % 2 == 0 {
        y := y + 1;
        ghost var s := pspill[..][y := pspill[x]];
        pspill[y] := pspill[x];
        assert pspill[..] == s;
      }
    }
    SquashEnd(pspill[..], w, y0, y, n);
    CountSet(pspill[..], y);
    ghost var s := pspill[..][0 := y];
    pspill[0] := y;
    assert pspill[..] == s;
  }

  lemma EvensSnoc(m: seq<Id>, v: Id)
    ensures Evens(m + [v]) == Evens(m) + if v % 2 == 0 then [v] else []
  {
    assert (m + [v])[..|m|] == m;
  }

  /** What is left keeps its order. */
  lemma {:induction false} EvensOk(s: seq<Id>, m: seq<Id>, y: nat, k: nat)
    requires SpillOk(s) && |m| == |s| && y <= k <= |s|
    requires forall q | 0 <= q < |s| :: m[q] == s[q] || m[q] == 1
    ensures SpillOk(s[..y] + Evens(m[y..k])) && forall v | v in s[..y] + Evens(m[y..k]) :: v in s[..k]
    decreases k
  {
    hide *;
    if k == y {
      EvensNone(s, m, y);
    } else {
      EvensOk(s, m, y, k - 1);
      EvensMore(s, m, y, k - 1, s[..y] + Evens(m[y..k - 1]));
    }
  }

  lemma EvensNone(s: seq<Id>, m: seq<Id>, y: nat)
    requires SpillOk(s) && y <= |s| == |m|
    ensures s[..y] + Evens(m[y..y]) == s[..y] && SpillOk(s[..y])
  {
    assert m[y..y] == [] && s[..y] + [] == s[..y];
  }

  lemma EvensMore(s: seq<Id>, m: seq<Id>, y: nat, k: nat, r: seq<Id>)
    requires SpillOk(s) && y <= k < |s| == |m| && (m[k] == s[k] || m[k] == 1)
    requires r == s[..y] + Evens(m[y..k]) && SpillOk(r) && forall v | v in r :: v in s[..k]
    ensures var r' := s[..y] + Evens(m[y..k + 1]); SpillOk(r') && forall v | v in r' :: v in s[..k + 1]
  {
    hide SpillOk, Evens;
    assert m[y..k + 1] == m[y..k] + [m[k]];
    EvensSnoc(m[y..k], m[k]);
    Seqs.TakeSnoc(s, k);
    if m[k] % 2 == 0 {
      EvenSnocOk(s, r, k);
      Seqs.Assoc(s[..y], Evens(m[y..k]), [m[k]]);
    } else {
      Seqs.Assoc(s[..y], Evens(m[y..k]), []);
      assert r + [] == r;
    }
  }

  lemma EvenSnocOk(s: seq<Id>, r: seq<Id>, k: nat)
    requires SpillOk(s) && SpillOk(r) && k < |s| && s[k] % 2 == 0 && forall v | v in r :: v in s[..k]
    ensures SpillOk(r + [s[k]])
  {
    forall p | 0 <= p < |r| ensures r[p] > s[k] {
      assert r[p] in s[..k];
      var q :| 0 <= q < k && s[q] == r[p];
    }
  }

  /** Remove the child's dirty pages from the parent's spill list. */
  method ForgetDirty(pspill: array<Id>, src: array<Id2>)
    requires IsList(pspill[..]) && SpillOk(Ids(pspill[..])) && pspill.Length <= ID_MAX
    requires IsList2(src[..]) && Rising(Entries(src[..])) && forall q | 0 <= q < |Entries(src[..])| :: 2 * Entries(src[..])[q].mid < ID_MAX
    modifies pspill
    ensures IsList(pspill[..]) && SpillOk(Ids(pspill[..]))
    ensures forall p: Id :: Spilled(Ids(pspill[..]), p) <==> Spilled(old(Ids(pspill[..])), p) && Get(Entries(src[..]), p) == None
  {
    hide SpillOk, Marked, Rising, Spilled;
    ghost var s, b := Ids(pspill[..]), Entries(src[..]);
    var n := pspill[0];
    if n > 0 {
      var y := MarkDeleted(pspill, src);
      ghost var m := pspill[1..n + 1];
      Squash(pspill, y, n);
      EvensMarked(s, m, b, y);
    } else {
      NoneSpilled(s);
    }
  }

  lemma NoneSpilled(s: seq<Id>)
    requires s == []
    ensures SpillOk(s) && forall p: Id :: !Spilled(s, p)
  {}

  lemma EvensMarked(s: seq<Id>, m: seq<Id>, b: seq<Id2>, y: nat)
    requires SpillOk(s) && Marked(m, s, b) && Rising(b) && y <= |s| && m[..y] == s[..y]
    ensures var r := s[..y] + Evens(m[y..]);
            SpillOk(r) && forall p: Id :: Spilled(r, p) <==> Spilled(s, p) && Get(b, p) == None
  {
    var r := s[..y] + Evens(m[y..]);
    assert m[y..|s|] == m[y..];
    EvensOk(s, m, y, |s|);
    EvensIs(m[y..]);
    forall p: Id ensures Spilled(r, p) <==> Spilled(s, p) && Get(b, p) == None {
      MarkedGet(b, p);
      SpilledMarked(s, m, b, y, p);
    }
  }

  lemma MarkedGet(b: seq<Id2>, p: Id)
    requires Rising(b)
    ensures 2 * p <= ID_MAX ==> (Matches(b, |b|, 2 * p) <==> Get(b, p) != None)
  {
    GetIs(b, p);
    if Get(b, p) != None {
      var q :| 0 <= q < |b| && b[q].mid == p;
      assert 2 * b[q].mid == 2 * p;
    }
  }

  lemma SpilledMarked(s: seq<Id>, m: seq<Id>, b: seq<Id2>, y: nat, p: Id)
    requires Marked(m, s, b) && y <= |s| && m[..y] == s[..y]
    requires forall v :: v in Evens(m[y..]) <==> v in m[y..] && v % 2 == 0
    ensures Spilled(s[..y] + Evens(m[y..]), p) <==> Spilled(s, p) && !Matches(b, |b|, 2 * p)
  {
    var r := s[..y] + Evens(m[y..]);
    if Spilled(r, p) {
      var q :| 0 <= q < |r| && r[q] == 2 * p;
      if q < y {
        assert m[..y][q] == s[q] == 2 * p && m[q] == 2 * p;
      } else {
        assert r[q] in Evens(m[y..]);
        var j :| 0 <= j < |m[y..]| && m[y..][j] == 2 * p;
        assert m[y + j] == 2 * p;
        assert s[y + j] == 2 * p;
      }
    }
    if Spilled(s, p) && !Matches(b, |b|, 2 * p) {
      var q :| 0 <= q < |s| && s[q] == 2 * p;
      assert m[q] == 2 * p;
      if q < y {
        assert r[q] == 2 * p;
      } else {
        assert m[y..][q - y] == 2 * p;
        assert m[q] in Evens(m[y..]);
        var j :| 0 <= j < |Evens(m[y..])| && Evens(m[y..])[j] == m[q];
        assert r[y + j] == 2 * p;
      }
    }
  }

  // ---------------------------------------------------------------- the child's spilled pages leave the parent's dirty list

  lemma WithoutRises(s: seq<Id2>, k: nat)
    requires Rising(s) && k < |s|
    ensures Rising(s[..k] + s[k + 1..])
  {
    var r := s[..k] + s[k + 1..];
    assert forall q | 0 <= q < |r| :: r[q] == s[if q < k then q else q + 1];
  }

  lemma WithoutGet(s: seq<Id2>, k: nat, p: Id)
    requires Rising(s) && k < |s|
    ensures Rising(s[..k] + s[k + 1..])
    ensures Get(s[..k] + s[k + 1..], p) == if p == s[k].mid then None else Get(s, p)
  {
    var r := s[..k] + s[k + 1..];
    WithoutRises(s, k);
    GetIs(s, p);
    GetIs(r, p);
    WithoutHas(s, k, p, r);
  }

  lemma WithoutHas(s: seq<Id2>, k: nat, p: Id, r: seq<Id2>)
    requires Rising(s) && k < |s| && r == s[..k] + s[k + 1..]
    ensures p == s[k].mid ==> forall q | 0 <= q < |r| :: r[q].mid != p
    ensures p != s[k].mid ==> forall q | 0 <= q < |s| && s[q].mid == p :: s[q] in r
    ensures p != s[k].mid && (forall q | 0 <= q < |s| :: s[q].mid != p) ==> forall j | 0 <= j < |r| :: r[j].mid != p
  {
    assert forall q | 0 <= q < |r| :: r[q] == s[if q < k then q else q + 1];
    if p != s[k].mid {
      forall q | 0 <= q < |s| && s[q].mid == p ensures s[q] in r {
        assert r[if q < k then q else q - 1] == s[q];
      }
    }
  }

  /** Move the entries after position y down over it. */
  method RemoveAt(dst: array<Id2>, y0: nat)
    requires IsList2(dst[..]) && 1 <= y0 <= dst[0].mid
    modifies dst
    ensures IsList2(dst[..])
    ensures Entries(dst[..]) == old(Entries(dst[..])[..y0 - 1] + Entries(dst[..])[y0..])
  {
    ghost var w, s := dst[..], Entries(dst[..]);
    var y: nat, n: nat := y0, dst[0].mid;
    while y < n
      invariant y0 <= y <= n && dst[0] == w[0] && n == w[0].mid
      invariant forall q | 1 <= q < y0 || y < q < dst.Length :: dst[q] == w[q]
      invariant forall q | y0 <= q < y :: dst[q] == w[q + 1]
    {
      dst[y] := dst[y + 1];
      y := y + 1;
    }
    dst[0] := Id2(n - 1, dst[0].ptr);
    Removed(w, dst[..], y0);
  }

  lemma Removed(w: seq<Id2>, d: seq<Id2>, y: nat)
    requires IsList2(w) && |d| == |w| && 1 <= y <= w[0].mid && d[0].mid == w[0].mid - 1
    requires forall q | 1 <= q < y :: d[q] == w[q]
    requires forall q | y <= q < w[0].mid :: d[q] == w[q + 1]
    ensures IsList2(d) && Entries(d) == Entries(w)[..y - 1] + Entries(w)[y..]
  {
    var s, r := Entries(w), Entries(d);
    assert forall q | 0 <= q < |s| :: s[q] == w[q + 1];
    assert forall q | 0 <= q < |r| :: r[q] == d[q + 1];
    var u := s[..y - 1] + s[y..];
    forall q | 0 <= q < |r| ensures r[q] == u[q] {
      assert r[q] == if q + 1 < y then w[q + 1] else w[q + 2];
    }
  }

  /** The dirty list without the pages on the first k entries of a spill list. */
  ghost predicate DroppedUpTo(d: seq<Id2>, d0: seq<Id2>, s: seq<Id>, k: nat)
    requires k <= |s|
  {
    Rising(d) && forall p: Id :: Get(d, p) == if Spilled(s[..k], p) then None else Get(d0, p)
  }

  lemma DropNone(d0: seq<Id2>, s: seq<Id>)
    requires Rising(d0)
    ensures DroppedUpTo(d0, d0, s, 0)
  {}

  lemma SpilledSnoc(s: seq<Id>, k: nat, p: Id)
    requires k < |s|
    ensures Spilled(s[..k + 1], p) <==> Spilled(s[..k], p) || s[k] == 2 * p
  {
    if Spilled(s[..k], p) {
      var q :| 0 <= q < k && s[..k][q] == 2 * p;
      assert s[..k + 1][q] == 2 * p;
    }
    if s[k] == 2 * p { assert s[..k + 1][k] == 2 * p; }
    if Spilled(s[..k + 1], p) {
      var q :| 0 <= q < k + 1 && s[..k + 1][q] == 2 * p;
      if q < k { assert s[..k][q] == 2 * p; }
    }
  }

  lemma DropFound(d: seq<Id2>, d0: seq<Id2>, s: seq<Id>, k: nat, y: nat)
    requires k < |s| && DroppedUpTo(d, d0, s, k) && s[k] % 2 == 0 && y < |d| && d[y].mid == s[k] / 2
    ensures DroppedUpTo(d[..y] + d[y + 1..], d0, s, k + 1)
  {
    WithoutGet(d, y, 0);
    forall p: Id ensures Get(d[..y] + d[y + 1..], p) == if Spilled(s[..k + 1], p) then None else Get(d0, p) {
      WithoutGet(d, y, p);
      SpilledSnoc(s, k, p);
    }
  }

  lemma DropMissing(d: seq<Id2>, d0: seq<Id2>, s: seq<Id>, k: nat)
    requires k < |s| && DroppedUpTo(d, d0, s, k)
    requires s[k] % 2 == 0 ==> forall q | 0 <= q < |d| :: d[q].mid != s[k] / 2
    ensures DroppedUpTo(d, d0, s, k + 1)
  {
    forall p: Id ensures Get(d, p) == if Spilled(s[..k + 1], p) then None else Get(d0, p) {
      SpilledSnoc(s, k, p);
      if s[k] == 2 * p { GetNone(d, p); }
    }
  }

  /** Remove the child's spilled pages from the parent's dirty list. */
  method DropSpilled(dst: array<Id2>, spill: array<Id>)
    requires IsList2(dst[..]) && Rising(Entries(dst[..])) && IsList(spill[..])
    modifies dst
    ensures IsList2(dst[..]) && Rising(Entries(dst[..]))
    ensures forall p: Id ::
              Get(Entries(dst[..]), p) == if Spilled(Ids(spill[..]), p) then None else Get(old(Entries(dst[..])), p)
  {
    hide Spilled, Rising;
    ghost var d0, s := Entries(dst[..]), Ids(spill[..]);
    assert forall q | 1 <= q <= |s| :: spill[q] == s[q - 1];
    DropNone(d0, s);
    var i, n: nat := 1, spill[0];
    while i <= n
      invariant 1 <= i <= n + 1 && n == |s| && spill[..] == old(spill[..])
      invariant IsList2(dst[..]) && DroppedUpTo(Entries(dst[..]), d0, s, i - 1)
    {
      assert spill[i] == s[i - 1];
      DropOne(dst, d0, s, i - 1, spill[i]);
      i := i + 1;
    }
    assert s[..|s|] == s;
  }

  method DropOne(dst: array<Id2>, ghost d0: seq<Id2>, ghost s: seq<Id>, ghost k: nat, pn: Id)
    requires k < |s| && IsList2(dst[..]) && DroppedUpTo(Entries(dst[..]), d0, s, k) && pn == s[k]
    modifies dst
    ensures IsList2(dst[..]) && DroppedUpTo(Entries(dst[..]), d0, s, k + 1)
  {
    hide Spilled, DroppedUpTo;
    ghost var d := Entries(dst[..]);
    DroppedRises(d, d0, s, k);
    assert forall q | 1 <= q <= |d| :: dst[q] == d[q - 1];
    if pn % 2 == 1 {
      DropMissing(d, d0, s, k);
      return;
    }
    var y := Search2(dst, pn / 2);
    if y <= dst[0].mid && dst[y].mid == pn / 2 {
      DropFound(d, d0, s, k, y - 1);
      RemoveAt(dst, y);
    } else {
      forall q | 0 <= q < |d| ensures d[q].mid != pn / 2 {
        assert d[q] == dst[q + 1];
      }
      DropMissing(d, d0, s, k);
    }
  }

  lemma DroppedRises(d: seq<Id2>, d0: seq<Id2>, s: seq<Id>, k: nat)
    requires k <= |s| && DroppedUpTo(d, d0, s, k)
    ensures Rising(d)
  {}

  // ---------------------------------------------------------------- joining the spill lists

  lemma EvenOnce(s: seq<Id>, v: Id)
    requires SpillOk(s) && v % 2 == 0
    ensures multiset(s)[v] <= 1
  {
    if v in multiset(s) {
      var q :| 0 <= q < |s| && s[q] == v;
      EvenElsewhere(s, q);
      hide SpillOk;
      Seqs.CutOne(s, q);
      Absent(s[..q], v);
      Absent(s[q + 1..], v);
      assert multiset(s) == multiset(s[..q]) + (multiset{v} + multiset(s[q + 1..]));
    }
  }

  lemma EvenElsewhere(s: seq<Id>, q: nat)
    requires SpillOk(s) && q < |s| && s[q] % 2 == 0
    ensures s[q] !in s[..q] && s[q] !in s[q + 1..]
  {
    forall p | 0 <= p < |s| && p != q ensures s[p] != s[q] {
      if p < q { assert s[p] >= s[q]; } else { assert s[q] >= s[p]; }
    }
  }

  lemma Absent(a: seq<Id>, v: Id)
    requires v !in a
    ensures multiset(a)[v] == 0
  {}

  lemma EvensDistinct(s: seq<Id>)
    requires Falling(s) && forall v: Id | v % 2 == 0 :: multiset(s)[v] <= 1
    ensures SpillOk(s)
  {
    forall p, q | 0 <= p < q < |s| ensures s[p] == s[q] ==> s[p] % 2 == 1 {
      if s[p] == s[q] { Twice(s, p, q); }
    }
  }

  /** Two spill lists that share no page, in one list in order. */
  lemma SpillsJoined(a: seq<Id>, b: seq<Id>, r: seq<Id>)
    requires SpillOk(a) && SpillOk(b) && Falling(r) && multiset(r) == multiset(a + b)
    requires forall p: Id :: !(Spilled(a, p) && Spilled(b, p))
    ensures SpillOk(r) && forall p: Id :: Spilled(r, p) <==> Spilled(a, p) || Spilled(b, p)
  {
    forall v: Id | v % 2 == 0 ensures multiset(r)[v] <= 1 {
      EvenOnce(a, v);
      EvenOnce(b, v);
      SharedNone(a, b, v);
    }
    EvensDistinct(r);
    forall p: Id ensures Spilled(r, p) <==> Spilled(a, p) || Spilled(b, p) {
      JoinedHas(a, b, r, p);
    }
  }

  lemma SharedNone(a: seq<Id>, b: seq<Id>, v: Id)
    requires v % 2 == 0 && forall p: Id :: !(Spilled(a, p) && Spilled(b, p))
    ensures multiset(a)[v] == 0 || multiset(b)[v] == 0
  {
    if v in multiset(a) && v in multiset(b) {
      var p := v / 2;
      var i :| 0 <= i < |a| && a[i] == v;
      var j :| 0 <= j < |b| && b[j] == v;
      assert Spilled(a, p) && Spilled(b, p);
    }
  }

  lemma JoinedHas(a: seq<Id>, b: seq<Id>, r: seq<Id>, p: Id)
    requires multiset(r) == multiset(a + b)
    ensures Spilled(r, p) <==> Spilled(a, p) || Spilled(b, p)
  {
    if Spilled(r, p) {
      var q :| 0 <= q < |r| && r[q] == 2 * p;
      assert r[q] in multiset(r);
      assert r[q] in multiset(a + b);
      var k :| 0 <= k < |a + b| && (a + b)[k] == r[q];
      if k < |a| { assert a[k] == 2 * p; } else { assert b[k - |a|] == 2 * p; }
    }
    if Spilled(a, p) {
      var q :| 0 <= q < |a| && a[q] == 2 * p;
      assert (a + b)[q] == a[q];
      SpilledIn(a + b, r, q, p);
    }
    if Spilled(b, p) {
      var q :| 0 <= q < |b| && b[q] == 2 * p;
      assert (a + b)[|a| + q] == b[q];
      SpilledIn(a + b, r, |a| + q, p);
    }
  }

  lemma SpilledIn(s: seq<Id>, r: seq<Id>, q: nat, p: Id)
    requires multiset(r) == multiset(s) && q < |s| && s[q] == 2 * p
    ensures Spilled(r, p)
  {
    assert s[q] in multiset(s);
    assert s[q] in multiset(r);
    var k :| 0 <= k < |r| && r[k] == s[q];
  }

  /** Append the child's list to the parent's, and sort. */
  method JoinSpills(list: IdList, app: array<Id>)
    requires list.Valid() && SpillOk(list.List()) && IsList(app[..]) && SpillOk(Ids(app[..])) && app != list.ids
    requires list.ids.Length + Count(app[..]) < INT_MAX
    requires forall p: Id :: !(Spilled(list.List(), p) && Spilled(Ids(app[..]), p))
    modifies list, list.ids
    ensures list.Valid() && SpillOk(list.List()) && (list.ids == old(list.ids) || fresh(list.ids))
    ensures forall p: Id :: Spilled(list.List(), p) <==> Spilled(old(list.List()), p) || Spilled(old(Ids(app[..])), p)
  {
    hide SpillOk, Spilled;
    ghost var a, b := list.List(), Ids(app[..]);
    list.AppendList(app);
    ghost var w := list.ids[..];
    Sort(list.ids);
    SortedIds(w, list.ids[..]);
    SpillsJoined(a, b, list.List());
  }

  lemma SortedIds(w: seq<Id>, s: seq<Id>)
    requires IsList(w) && |s| == |w| && s[0] == w[0] && Shuffled(w, s, 1, Count(w) + 1) && Descending(s, 1, Count(w) + 1)
    ensures IsList(s) && Falling(Ids(s)) && multiset(Ids(s)) == multiset(Ids(w))
  {
    InsideShuffled(w, s, 1, Count(w) + 1);
    var r := Ids(s);
    assert forall p | 0 <= p < |r| :: r[p] == s[p + 1];
  }

  // ---------------------------------------------------------------- counting visible dirty pages

  ghost function Mids(s: seq<Id2>): set<Id> {
    set q | 0 <= q < |s| :: s[q].mid
  }

  lemma MidsGet(s: seq<Id2>, p: Id)
    requires Rising(s)
    ensures p in Mids(s) <==> Get(s, p) != None
  {
    GetIs(s, p);
  }

  lemma MidsSnoc(s: seq<Id2>, e: Id2)
    ensures Mids(s + [e]) == Mids(s) + {e.mid}
  {
    var r := s + [e];
    forall p | p in Mids(s) ensures p in Mids(r) {
      var q :| 0 <= q < |s| && s[q].mid == p;
      assert r[q].mid == p;
    }
    assert r[|s|].mid == e.mid;
  }

  lemma {:induction false} MidsSize(s: seq<Id2>)
    requires Rising(s)
    ensures |Mids(s)| == |s|
    decreases |s|
  {
    if s == [] {
      assert Mids(s) == {};
    } else {
      var k := |s| - 1;
      MidsSize(s[..k]);
      MidsSnoc(s[..k], s[k]);
      assert s == s[..k] + [s[k]];
      NewMid(s, k);
    }
  }

  lemma NewMid(s: seq<Id2>, k: nat)
    requires Rising(s) && k < |s|
    ensures s[k].mid !in Mids(s[..k])
  {}

  /** The dirty pages the child sees: its own, and the parent's that it has not spilled. */
  ghost function Visible(parent: seq<Id2>, child: seq<Id2>, spill: seq<Id>): set<Id> {
    Mids(child) + set p | p in Mids(parent) && !Spilled(spill, p)
  }

  /** So many entries does the merged list have. */
  lemma VisibleSize(parent: seq<Id2>, d: seq<Id2>, child: seq<Id2>, spill: seq<Id>)
    requires Rising(parent) && Rising(d) && Rising(child)
    requires forall p: Id :: Get(d, p) == if Spilled(spill, p) then None else Get(parent, p)
    ensures |Union(d, child)| == |Visible(parent, child, spill)|
    ensures Mids(Union(d, child)) == Visible(parent, child, spill)
  {
    hide Mids, Spilled, Rising;
    var u := Union(d, child);
    UnionRises(d, child);
    forall p: Id ensures p in Mids(u) <==> p in Visible(parent, child, spill) {
      UnionGet(d, child, p);
      MidsGet(u, p);
      MidsGet(child, p);
      MidsGet(parent, p);
    }
    assert Mids(u) == Visible(parent, child, spill);
    MidsSize(u);
  }

  // ---------------------------------------------------------------- page lookup

  /** Where `mdb_page_get` finds a page at one level. */
  datatype Hit = Mapped | Ptr(ptr: nat) | Miss

  ghost function Lookup(dirty: seq<Id2>, spill: seq<Id>, p: Id): Hit {
    if Spilled(spill, p) then Mapped
    else match Get(dirty, p)
      case Some(x) => Ptr(x)
      case None => Miss
  }

  /** The dirty and spill lists of a transaction, and mt_dirty_room. */
  class Level {
    var dirty: array<Id2>
    var spill: IdList?
    var dirtyRoom: nat

    ghost function DirtyList(): seq<Id2>
      requires IsList2(dirty[..])
      reads this, dirty
    {
      Entries(dirty[..])
    }

    ghost predicate DirtyOk()
      reads this, dirty
    {
      && UM_MAX < dirty.Length <= ID_MAX && IsList2(dirty[..]) && Rising(DirtyList())
      && forall q | 0 <= q < |DirtyList()| :: 2 * DirtyList()[q].mid < ID_MAX
    }

    ghost predicate SpillsOk()
      reads this, spill, if spill == null then {} else {spill.ids}
    {
      spill != null ==> spill.Valid() && SpillOk(spill.List())
    }

    ghost function SpillList(): seq<Id>
      requires SpillsOk()
      reads this, spill, if spill == null then {} else {spill.ids}
    {
      if spill == null then [] else spill.List()
    }

    /** In order, and no page is on both lists. */
    ghost predicate Valid()
      reads this, dirty, spill, if spill == null then {} else {spill.ids}
    {
      DirtyOk() && SpillsOk() && Apart(DirtyList(), SpillList())
    }

    constructor (room: nat)
      ensures Valid() && fresh(dirty) && spill == null && DirtyList() == [] && dirtyRoom == room
    {
      dirty := new Id2[UM_MAX + 1](_ => Id2(0, 0));
      spill := null;
      dirtyRoom := room;
    }

    /** One round of the loop in `mdb_page_get`: the spill list first, then the dirty list. */
    method Find(p: Id) returns (hit: Hit)
      requires Valid() && 2 * p < ID_MAX
      ensures hit == Lookup(DirtyList(), SpillList(), p)
    {
      hide Spilled, SpillOk, Rising;
      if spill != null {
        SpillFalls(spill.List());
        var x := Search(spill.ids, 2 * p);
        SpillFound(spill.ids[..], x, p);
        if x <= spill.ids[0] && spill.ids[x] == 2 * p {
          return Mapped;
        }
      } else {
        NoneSpilled([]);
      }
      var d := Search2(dirty, p);
      DirtyFound(dirty[..], d, p);
      if d <= dirty[0].mid && dirty[d].mid == p {
        hit := Ptr(dirty[d].ptr);
      } else {
        hit := Miss;
      }
    }
  }

  ghost predicate Apart(dirty: seq<Id2>, spill: seq<Id>) {
    forall p: Id :: Get(dirty, p) == None || !Spilled(spill, p)
  }

  lemma SpillFalls(s: seq<Id>)
    requires SpillOk(s)
    ensures Falling(s)
  {}

  lemma SpillFound(w: seq<Id>, x: nat, p: Id)
    requires IsList(w) && 1 <= x <= Count(w) + 1
    requires (x <= w[0] && w[x] == 2 * p) || 2 * p !in Ids(w)
    ensures Spilled(Ids(w), p) <==> x <= w[0] && w[x] == 2 * p
  {
    if x <= w[0] && w[x] == 2 * p { assert Ids(w)[x - 1] == 2 * p; }
  }

  lemma DirtyFound(w: seq<Id2>, d: nat, p: Id)
    requires IsList2(w) && Rising(Entries(w)) && 1 <= d <= w[0].mid + 1
    requires (forall q | 1 <= q < d :: w[q].mid < p) && (forall q | d < q <= w[0].mid :: p < w[q].mid)
    ensures Get(Entries(w), p) == if d <= w[0].mid && w[d].mid == p then Some(w[d].ptr) else None
  {
    var s := Entries(w);
    assert forall q | 0 <= q < |s| :: s[q] == w[q + 1];
    GetIs(s, p);
    if d <= w[0].mid && w[d].mid == p { assert s[d - 1].mid == p; }
  }

  /** What the lists of a level are. */
  ghost predicate Holds(level: Level, lists: (seq<Id2>, seq<Id>))
    reads level, level.dirty, level.spill, if level.spill == null then {} else {level.spill.ids}
  {
    level.Valid() && level.DirtyList() == lists.0 && level.SpillList() == lists.1
  }

  /** `mdb_page_get` in a chain of nested transactions, the innermost first: Mapped when the page is
      read from the map. */
  method PageGet(levels: seq<Level>, p: Id, ghost all: seq<(seq<Id2>, seq<Id>)>) returns (hit: Hit)
    requires 2 * p < ID_MAX && |all| == |levels| && forall k | 0 <= k < |levels| :: Holds(levels[k], all[k])
    ensures hit == Seen(all, p)
  {
    hide Seen, Lookup;
    var k := 0;
    assert all[0..] == all;
    while k < |levels|
      invariant 0 <= k <= |levels| == |all| && Seen(all, p) == Seen(all[k..], p)
    {
      assert Holds(levels[k], all[k]);
      hit := levels[k].Find(p);
      SeenStep(all, k, p);
      if hit != Miss {
        return;
      }
      k := k + 1;
    }
    hit := Mapped;
    SeenEnd(p);
    assert all[k..] == [];
  }

  lemma SeenStep(lists: seq<(seq<Id2>, seq<Id>)>, k: nat, p: Id)
    requires k < |lists|
    ensures var hit := Lookup(lists[k].0, lists[k].1, p);
            Seen(lists[k..], p) == if hit != Miss then hit else Seen(lists[k + 1..], p)
  {
    assert lists[k..][1..] == lists[k + 1..];
  }

  lemma SeenEnd(p: Id)
    ensures Seen([], p) == Mapped
  {}

  /** What a page is, through the levels. */
  ghost function Seen(lists: seq<(seq<Id2>, seq<Id>)>, p: Id): Hit {
    if lists == [] then Mapped
    else
      var hit := Lookup(lists[0].0, lists[0].1, p);
      if hit != Miss then hit else Seen(lists[1..], p)
  }

  // ---------------------------------------------------------------- the commit

  /** The parent's lists after the commit, as maps. */
  ghost predicate Committed(dirty: seq<Id2>, spill: seq<Id>, pd: seq<Id2>, ps: seq<Id>, cd: seq<Id2>, cs: seq<Id>) {
    && (forall p: Id :: Get(dirty, p) == if Get(cd, p).Some? then Get(cd, p) else if Spilled(cs, p) then None else Get(pd, p))
    && (forall p: Id :: Spilled(spill, p) <==> Spilled(cs, p) || (Spilled(ps, p) && Get(cd, p) == None))
  }

  /** So the parent sees every page as the child did. */
  lemma CommitSeen(dirty: seq<Id2>, spill: seq<Id>, pd: seq<Id2>, ps: seq<Id>, cd: seq<Id2>, cs: seq<Id>,
                   above: seq<(seq<Id2>, seq<Id>)>, p: Id)
    requires Committed(dirty, spill, pd, ps, cd, cs) && Apart(cd, cs)
    ensures Seen([(dirty, spill)] + above, p) == Seen([(cd, cs), (pd, ps)] + above, p)
  {
    hide Spilled, Get;
    var after, before := [(dirty, spill)] + above, [(cd, cs), (pd, ps)] + above;
    assert after[1..] == above && before[1..] == [(pd, ps)] + above && ([(pd, ps)] + above)[1..] == above;
    assert before[1..][0] == (pd, ps);
  }

  lemma CommittedApart(dirty: seq<Id2>, spill: seq<Id>, pd: seq<Id2>, ps: seq<Id>, cd: seq<Id2>, cs: seq<Id>)
    requires Committed(dirty, spill, pd, ps, cd, cs) && Apart(cd, cs) && Apart(pd, ps)
    ensures Apart(dirty, spill)
  {
    hide Spilled, Get;
  }

  lemma SmallMids(pd: seq<Id2>, d: seq<Id2>, cs: seq<Id>)
    requires Rising(pd) && Rising(d) && forall q | 0 <= q < |pd| :: 2 * pd[q].mid < ID_MAX
    requires forall p: Id :: Get(d, p) == if Spilled(cs, p) then None else Get(pd, p)
    ensures forall q | 0 <= q < |d| :: d[q].mid < ID_MAX
  {
    hide Spilled;
    forall q | 0 <= q < |d| ensures d[q].mid < ID_MAX {
      GetIs(d, d[q].mid);
      GetIs(pd, d[q].mid);
      assert Get(d, d[q].mid) == Some(d[q].ptr);
    }
  }

  /** The dirty lists are merged, the child's pages winning; its spilled pages are gone from the
      parent's list first. */
  method MergeDirty(dst: array<Id2>, src: array<Id2>, spill: IdList?, room: nat, grandparent: bool)
    requires dst != src && UM_MAX < dst.Length <= ID_MAX && IsList2(dst[..]) && IsList2(src[..])
    requires Rising(Entries(dst[..])) && Rising(Entries(src[..]))
    requires spill != null ==> spill.Valid()
    requires forall q | 0 <= q < |Entries(dst[..])| :: 2 * Entries(dst[..])[q].mid < ID_MAX
    requires forall q | 0 <= q < |Entries(src[..])| :: 2 * Entries(src[..])[q].mid < ID_MAX
    requires var v := |Visible(Entries(dst[..]), Entries(src[..]), if spill == null then [] else spill.List())|;
             v + room <= UM_MAX && (!grandparent ==> v + room == UM_MAX)
    modifies dst
    ensures IsList2(dst[..]) && Rising(Entries(dst[..]))
    ensures forall p: Id ::
              Get(Entries(dst[..]), p) == if Get(Entries(src[..]), p).Some? then Get(Entries(src[..]), p)
                                          else if Spilled(if spill == null then [] else spill.List(), p) then None
                                          else Get(old(Entries(dst[..])), p)
    ensures Mids(Entries(dst[..])) == old(Visible(Entries(dst[..]), Entries(src[..]), if spill == null then [] else spill.List()))
  {
    hide Spilled, Rising, Get, Union, Mids, Visible;
    ghost var pd, cd, cs := Entries(dst[..]), Entries(src[..]), if spill == null then [] else spill.List();
    if spill != null {
      DropSpilled(dst, spill.ids);
    } else {
      NoneSpilled([]);
    }
    ghost var d := Entries(dst[..]);
    VisibleSize(pd, d, cd, cs);
    SmallMids(pd, d, cs);
    var len: nat;
    if grandparent {
      len := CountUnion(dst, src);
    } else {
      len := UM_MAX - room;
    }
    assert Entries(dst[..]) == d;
    Merge2(dst, src, len);
    UnionRises(d, cd);
    forall p: Id ensures Get(Entries(dst[..]), p) == if Get(cd, p).Some? then Get(cd, p) else Get(d, p) {
      UnionGet(d, cd, p);
    }
  }

  /** The spill lists, when the child has one. */
  method MergeSpills(parent: Level, child: Level)
    requires parent.SpillsOk() && child.SpillsOk() && parent != child
    requires parent.spill != null && child.spill != null ==>
               parent.spill != child.spill && parent.spill.ids != child.spill.ids
               && parent.spill.ids.Length + Count(child.spill.ids[..]) < INT_MAX
    requires forall p: Id :: !(Spilled(parent.SpillList(), p) && Spilled(child.SpillList(), p))
    modifies parent`spill, parent.spill, if parent.spill == null then {} else {parent.spill.ids}
    ensures parent.SpillsOk()
    ensures forall p: Id :: Spilled(parent.SpillList(), p) <==> old(Spilled(parent.SpillList(), p) || Spilled(child.SpillList(), p))
  {
    hide Spilled, SpillOk;
    NoneSpilled([]);
    if child.spill != null {
      assert child.SpillList() == child.spill.List();
      if parent.spill != null {
        assert parent.SpillList() == parent.spill.List();
        JoinSpills(parent.spill, child.spill.ids);
      } else {
        parent.spill := child.spill;
      }
    }
  }

  /** The lists of two levels share no array. */
  ghost predicate Separate(parent: Level, child: Level)
    reads parent, child, parent.spill, child.spill
  {
    && parent != child && parent.dirty != child.dirty
    && (parent.spill != null && child.spill != null ==> parent.spill != child.spill && parent.spill.ids != child.spill.ids)
  }

  /** The child's dirty pages leave the parent's spill list, if there is one. */
  method ForgetSpilled(parent: Level, child: Level)
    requires parent.SpillsOk() && child.DirtyOk() && Separate(parent, child)
    modifies if parent.spill == null then {} else {parent.spill.ids}
    ensures parent.SpillsOk()
    ensures forall p: Id ::
              Spilled(parent.SpillList(), p) <==> old(Spilled(parent.SpillList(), p)) && Get(child.DirtyList(), p) == None
  {
    hide Spilled, SpillOk, Rising, Get;
    NoneSpilled([]);
    if parent.spill != null && parent.spill.ids[0] > 0 {
      ghost var s := parent.SpillList();
      assert s == parent.spill.List();
      ForgetDirty(parent.spill.ids, child.dirty);
      assert parent.SpillList() == parent.spill.List();
    } else {
      assert parent.SpillList() == [];
    }
  }

  /** The part of `mdb_txn_commit` that merges a nested transaction's page lists into its parent's.
      `grandparent`: the parent is nested itself. */
  method Commit(parent: Level, child: Level, grandparent: bool)
    requires parent.Valid() && child.Valid() && Separate(parent, child)
    requires parent.spill != null && child.spill != null ==> parent.spill.ids.Length + Count(child.spill.ids[..]) < INT_MAX
    // no page is spilled by both
    requires forall p: Id :: !(Spilled(parent.SpillList(), p) && Spilled(child.SpillList(), p))
    // what mt_dirty_room says of the pages the child sees; with a grandparent there may be more of them
    requires var v := |Visible(parent.DirtyList(), child.DirtyList(), child.SpillList())|;
             v + child.dirtyRoom <= UM_MAX && (!grandparent ==> v + child.dirtyRoom == UM_MAX)
    modifies parent, parent.dirty, parent.spill, if parent.spill == null then {} else {parent.spill.ids}
    ensures parent.Valid() && parent.dirtyRoom == old(child.dirtyRoom) && parent.dirty == old(parent.dirty)
    ensures Committed(parent.DirtyList(), parent.SpillList(), old(parent.DirtyList()), old(parent.SpillList()),
                      old(child.DirtyList()), old(child.SpillList()))
    ensures Mids(parent.DirtyList()) == old(Visible(parent.DirtyList(), child.DirtyList(), child.SpillList()))
    ensures !grandparent ==> |Mids(parent.DirtyList())| + parent.dirtyRoom == UM_MAX
  {
    hide Spilled, SpillOk, Rising, Get, Visible, Mids, Apart, Committed;
    ghost var pd, ps, cd, cs := parent.DirtyList(), parent.SpillList(), child.DirtyList(), child.SpillList();
    ForgetSpilled(parent, child);
    assert child.SpillList() == if child.spill == null then [] else child.spill.List();
    MergeDirty(parent.dirty, child.dirty, child.spill, child.dirtyRoom, grandparent);
    parent.dirtyRoom := child.dirtyRoom;
    ghost var dirty := parent.DirtyList();
    assert child.SpillList() == cs;
    MergeSpills(parent, child);
    assert parent.DirtyList() == dirty;
    IsCommitted(dirty, parent.SpillList(), pd, ps, cd, cs);
    CommittedApart(dirty, parent.SpillList(), pd, ps, cd, cs);
    CommittedSmall(dirty, pd, cd, cs);
  }

  lemma IsCommitted(dirty: seq<Id2>, spill: seq<Id>, pd: seq<Id2>, ps: seq<Id>, cd: seq<Id2>, cs: seq<Id>)
    requires forall p: Id :: Get(dirty, p) == if Get(cd, p).Some? then Get(cd, p) else if Spilled(cs, p) then None else Get(pd, p)
    requires forall p: Id :: Spilled(spill, p) <==> (Spilled(ps, p) && Get(cd, p) == None) || Spilled(cs, p)
    ensures Committed(dirty, spill, pd, ps, cd, cs)
  {}

  /** Page numbers stay small enough to be doubled. */
  lemma CommittedSmall(dirty: seq<Id2>, pd: seq<Id2>, cd: seq<Id2>, cs: seq<Id>)
    requires Rising(dirty) && Rising(pd) && Rising(cd)
    requires forall q | 0 <= q < |pd| :: 2 * pd[q].mid < ID_MAX
    requires forall q | 0 <= q < |cd| :: 2 * cd[q].mid < ID_MAX
    requires forall p: Id :: Get(dirty, p) == if Get(cd, p).Some? then Get(cd, p) else if Spilled(cs, p) then None else Get(pd, p)
    ensures forall q | 0 <= q < |dirty| :: 2 * dirty[q].mid < ID_MAX
  {
    hide Spilled;
    forall q | 0 <= q < |dirty| ensures 2 * dirty[q].mid < ID_MAX {
      var p := dirty[q].mid;
      GetIs(dirty, p);
      GetIs(cd, p);
      GetIs(pd, p);
      assert Get(dirty, p) == Some(dirty[q].ptr);
    }
  }

  // ---------------------------------------------------------------- mt_dirty_room, step by step

  /** The page sets of a nested transaction and of its parent, and mt_dirty_room. */
  datatype Pages = Pages(pd: set<Id>, ps: set<Id>, cd: set<Id>, cs: set<Id>, room: int)

  /** What changes them while the nested transaction runs. */
  datatype Step =
    | NewPage(p: Id)        // mdb_page_alloc: a page no list has
    | CopyParent(p: Id)     // mdb_page_touch: dirty in the parent
    | UnspillOwn(p: Id)     // mdb_page_unspill: spilled here
    | UnspillParent(p: Id)  // mdb_page_unspill: spilled by the parent
    | Spill(out: set<Id>)   // mdb_page_spill

  ghost function Shown(s: Pages): set<Id> { s.cd + (s.pd - s.cs) }

  /** No page is on both lists of a transaction, or spilled twice; mt_dirty_room is right. */
  ghost predicate RoomOk(s: Pages) {
    && s.cd !! s.cs && s.pd !! s.ps && s.ps !! s.cs
    && s.room + |Shown(s)| == UM_MAX && s.room >= 0
  }

  ghost predicate CanStep(s: Pages, a: Step) {
    match a
    case NewPage(p) => s.room > 0 && p !in s.pd + s.ps + s.cd + s.cs
    case CopyParent(p) => p in s.pd && p !in s.cd && p !in s.cs
    case UnspillOwn(p) => s.room > 0 && p in s.cs
    case UnspillParent(p) => s.room > 0 && p in s.ps && p !in s.cd && p !in s.cs
    case Spill(out) => out <= s.cd && out !! s.ps
  }

  ghost function TakeStep(s: Pages, a: Step): Pages {
    match a
    case NewPage(p) => s.(cd := s.cd + {p}, room := s.room - 1)
    case CopyParent(p) => s.(cd := s.cd + {p})
    case UnspillOwn(p) => s.(cd := s.cd + {p}, cs := s.cs - {p}, room := s.room - 1)
    case UnspillParent(p) => s.(cd := s.cd + {p}, room := s.room - 1)
    case Spill(out) => s.(cd := s.cd - out, cs := s.cs + out, room := s.room + |out|)
  }

  /** A nested transaction begins with empty lists and its parent's room. */
  lemma RoomStarts(pd: set<Id>, ps: set<Id>, room: int)
    requires pd !! ps && room >= 0 && room + |pd| == UM_MAX
    ensures RoomOk(Pages(pd, ps, {}, {}, room))
  {
    assert Shown(Pages(pd, ps, {}, {}, room)) == pd;
  }

  lemma OneShown(s: Pages, t: Pages, p: Id)
    requires s.room + |Shown(s)| == UM_MAX && t.room == s.room - 1
    requires Shown(t) == Shown(s) + {p} && p !in Shown(s)
    ensures t.room + |Shown(t)| == UM_MAX
  {}

  lemma SpillShown(s: Pages, out: set<Id>)
    requires RoomOk(s) && CanStep(s, Spill(out))
    ensures RoomOk(TakeStep(s, Spill(out)))
  {
    var t := TakeStep(s, Spill(out));
    assert Shown(s) == Shown(t) + out && Shown(t) !! out;
  }

  /** Every step keeps mt_dirty_room equal to the room left for visible dirty pages. */
  lemma RoomKept(s: Pages, a: Step)
    requires RoomOk(s) && CanStep(s, a)
    ensures RoomOk(TakeStep(s, a))
  {
    if a.Spill? {
      SpillShown(s, a.out);
    } else {
      var t := TakeStep(s, a);
      if a.CopyParent? {
        assert Shown(t) == Shown(s);
      } else {
        assert Shown(t) == Shown(s) + {a.p};
        OneShown(s, t, a.p);
      }
    }
  }
}
