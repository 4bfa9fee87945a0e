/** ID lists (midl.c): `mdb_midl_sort`, an in-place quicksort with an explicit stack. */
module IdSort {
  const ID_MAX := 0xffff_ffff_ffff_ffff
  type Id = x: int | 0 <= x <= ID_MAX

  /** Entries of `istack`: sizeof(int) * CHAR_BIT * 2. */
  const STACK := 64
  const SMALL := 8
  const INT_MAX := 0x7fff_ffff

  /** Larger ids first, within [lo, hi). */
  ghost predicate Descending(s: seq<Id>, lo: nat, hi: nat)
    requires hi <= |s|
  {
    forall p, q | lo <= p < q < hi :: s[p] >= s[q]
  }

  /** `b` is `a` with the elements of [lo, hi) permuted. */
  ghost predicate Shuffled(a: seq<Id>, b: seq<Id>, lo: nat, hi: nat) {
    && lo <= hi <= |a| == |b|
    && multiset(a) == multiset(b)
    && forall q | 0 <= q < lo || hi <= q < |a| :: a[q] == b[q]
  }

  lemma ShuffledTrans(a: seq<Id>, b: seq<Id>, c: seq<Id>, lo: nat, hi: nat)
    requires Shuffled(a, b, lo, hi) && Shuffled(b, c, lo, hi)
    ensures Shuffled(a, c, lo, hi)
  {}

  lemma SwapShuffles(a: seq<Id>, i: nat, j: nat, lo: nat, hi: nat)
    requires lo <= i <= j < hi <= |a|
    ensures Shuffled(a, a[i := a[j]][j := a[i]], lo, hi)
  {}

  /** The parts outside are the same, so the elements inside are. */
  lemma InsideShuffled(a: seq<Id>, b: seq<Id>, lo: nat, hi: nat)
    requires Shuffled(a, b, lo, hi)
    ensures multiset(a[lo..hi]) == multiset(b[lo..hi])
  {
    assert a[..lo] == b[..lo] && a[hi..] == b[hi..];
    Thirds(a, lo, hi);
    Thirds(b, lo, hi);
  }

  lemma Thirds(a: seq<Id>, lo: nat, hi: nat)
    requires lo <= hi <= |a|
    ensures multiset(a[lo..hi]) == multiset(a) - multiset(a[..lo]) - multiset(a[hi..])
  {
    assert a == a[..lo] + a[lo..hi] + a[hi..];
  }

  /** A value found in [lo, hi) after a shuffle was there before. */
  lemma ShuffledHas(a: seq<Id>, b: seq<Id>, lo: nat, hi: nat, p: nat) returns (q: nat)
    requires Shuffled(a, b, lo, hi) && lo <= p < hi
    ensures lo <= q < hi && a[q] == b[p]
  {
    InsideShuffled(a, b, lo, hi);
    var x, y := a[lo..hi], b[lo..hi];
    assert y[p - lo] in multiset(y);
    var r :| 0 <= r < |x| && x[r] == b[p];
    q := lo + r;
  }

  method Swap(ids: array<Id>, i: nat, j: nat, ghost lo: nat, ghost hi: nat)
    requires lo <= i <= j < hi <= ids.Length
    modifies ids
    ensures ids[..] == old(ids[..])[i := old(ids[j])][j := old(ids[i])]
    ensures Shuffled(old(ids[..]), ids[..], lo, hi)
  {
    SwapShuffles(ids[..], i, j, lo, hi);
    ids[i], ids[j] := ids[j], ids[i];
  }

  /** `a` with the element at j moved down to i. */
  ghost function Rotated(a: seq<Id>, i: nat, j: nat): (r: seq<Id>)
    requires i <= j < |a|
    ensures |r| == |a|
  {
    a[..i] + [a[j]] + a[i..j] + a[j + 1..]
  }

  lemma RotateShuffles(a: seq<Id>, i: nat, j: nat, lo: nat, hi: nat)
    requires lo <= i <= j < hi <= |a|
    ensures Shuffled(a, Rotated(a, i, j), lo, hi)
  {
    var b := Rotated(a, i, j);
    var y := a[i..j];
    assert a == a[..i] + y + [a[j]] + a[j + 1..];
  }

  /** The inner loop of the insertion sort: shift smaller elements up, to make room for ids[j].
      It may run down to index 1, but stops at l - 1 because everything below l is at least
      as large. */
  method ShiftUp(ids: array<Id>, l: nat, j: nat) returns (to: nat)
    requires 1 <= l < j < ids.Length
    requires l > 1 ==> ids[l - 1] >= ids[j]
    modifies ids
    ensures l <= to <= j
    ensures forall q | 0 <= q < to || j < q < ids.Length :: ids[q] == old(ids[q])
    ensures forall q | to <= q < j :: ids[q + 1] == old(ids[q]) < old(ids[j])
    ensures to > l ==> ids[to - 1] >= old(ids[j])
  {
    var a := ids[j];
    var i := j - 1;
    while i >= 1 && ids[i] < a
      invariant l - 1 <= i < j
      invariant forall q | 0 <= q <= i || j < q < ids.Length :: ids[q] == old(ids[q])
      invariant forall q | i < q < j :: ids[q + 1] == old(ids[q]) < a
    {
      ids[i + 1] := ids[i];
      i := i - 1;
    }
    to := i + 1;
  }

  /** One round of the insertion sort. */
  method InsertOne(ids: array<Id>, l: nat, j: nat) returns (ghost to: nat)
    requires 1 <= l < j < ids.Length
    requires Descending(ids[..], l, j)
    requires l > 1 ==> ids[l - 1] >= ids[j]
    modifies ids
    ensures l <= to <= j && ids[..] == Rotated(old(ids[..]), to, j)
    ensures Descending(ids[..], l, j + 1)
  {
    ghost var was := ids[..];
    var a := ids[j];
    var i := ShiftUp(ids, l, j);
    ids[i] := a;
    to := i;
    RotatedIs(was, ids[..], to, j);
    RotatedDescends(was, to, j, l);
  }

  lemma RotatedIs(a: seq<Id>, b: seq<Id>, i: nat, j: nat)
    requires i <= j < |a| == |b|
    requires forall q | 0 <= q < i || j < q < |a| :: b[q] == a[q]
    requires forall q | i <= q < j :: b[q + 1] == a[q]
    requires b[i] == a[j]
    ensures b == Rotated(a, i, j)
  {
    var r := Rotated(a, i, j);
    forall q | 0 <= q < |a| ensures b[q] == r[q] {
      if i < q <= j { assert b[(q - 1) + 1] == a[q - 1]; }
    }
  }

  lemma RotatedDescends(a: seq<Id>, i: nat, j: nat, lo: nat)
    requires lo <= i <= j < |a| && Descending(a, lo, j)
    requires forall q | i <= q < j :: a[q] < a[j]
    requires i > lo ==> a[i - 1] >= a[j]
    ensures Descending(Rotated(a, i, j), lo, j + 1)
  {
    var b := Rotated(a, i, j);
    assert forall q | lo <= q < i :: b[q] == a[q];
    assert forall q | i < q <= j :: b[q] == a[q - 1];
  }

  /** A round of the sort of [l, hi), seen from the state before the first round. */
  method InsertRound(ids: array<Id>, l: nat, j: nat, ghost hi: nat, ghost before: seq<Id>)
    requires 1 <= l < j < hi <= ids.Length
    requires l > 1 ==> forall q | l <= q < hi <= |before| :: before[l - 1] >= before[q]
    requires Shuffled(before, ids[..], l, hi) && Descending(ids[..], l, j)
    modifies ids
    ensures Shuffled(before, ids[..], l, hi) && Descending(ids[..], l, j + 1)
  {
    ghost var was := ids[..];
    if l > 1 {
      ghost var r := ShuffledHas(before, was, l, hi, j);
    }
    ghost var to := InsertOne(ids, l, j);
    RotateShuffles(was, to, j, l, hi);
    ShuffledTrans(before, was, ids[..], l, hi);
  }

  method InsertionSort(ids: array<Id>, l: nat, ir: nat)
    requires 1 <= l <= ir + 1 <= ids.Length
    requires l > 1 ==> forall q | l <= q <= ir :: ids[l - 1] >= ids[q]
    modifies ids
    ensures Shuffled(old(ids[..]), ids[..], l, ir + 1)
    ensures Descending(ids[..], l, ir + 1)
  {
    var j := l + 1;
    while j <= ir
      invariant l + 1 <= j
      invariant j <= ir + 1 || ir <= l
      invariant Shuffled(old(ids[..]), ids[..], l, ir + 1)
      invariant Descending(ids[..], l, if j <= ir + 1 then j else l)
    {
      InsertRound(ids, l, j, ir + 1, old(ids[..]));
      j := j + 1;
    }
  }

  // ---------------------------------------------------------------- partition

  /** Put the larger of two elements first. */
  method Order(ids: array<Id>, i: nat, j: nat, ghost lo: nat, ghost hi: nat, ghost before: seq<Id>)
    requires lo <= i < j < hi <= ids.Length && Shuffled(before, ids[..], lo, hi)
    modifies ids
    ensures Shuffled(before, ids[..], lo, hi)
    ensures ids[i] == (if old(ids[i]) < old(ids[j]) then old(ids[j]) else old(ids[i]))
    ensures ids[j] == (if old(ids[i]) < old(ids[j]) then old(ids[i]) else old(ids[j]))
    ensures forall q | 0 <= q < ids.Length && q != i && q != j :: ids[q] == old(ids[q])
  {
    ghost var was := ids[..];
    if ids[i] < ids[j] {
      Swap(ids, i, j, lo, hi);
      ShuffledTrans(before, was, ids[..], lo, hi);
    }
  }

  /** Median of left, center and right goes to l + 1; ids[l] >= ids[l + 1] >= ids[ir]. */
  method MedianOfThree(ids: array<Id>, l: nat, ir: nat)
    requires 1 <= l && l + SMALL <= ir < ids.Length
    modifies ids
    ensures Shuffled(old(ids[..]), ids[..], l, ir + 1)
    ensures ids[l] >= ids[l + 1] >= ids[ir]
  {
    var k := (l + ir) / 2;
    Swap(ids, l + 1, k, l, ir + 1);
    Order(ids, l, ir, l, ir + 1, old(ids[..]));
    Order(ids, l + 1, ir, l, ir + 1, old(ids[..]));
    Order(ids, l, l + 1, l, ir + 1, old(ids[..]));
  }

  /** What the partition loop keeps: [l, i] is at least the pivot, [j, ir] at most. */
  ghost predicate Split(s: seq<Id>, l: nat, ir: nat, i: nat, j: nat, a: Id)
    requires ir < |s|
  {
    && l + 1 <= i && j <= ir
    && (forall q | l <= q <= i && q <= ir :: s[q] >= a)
    && (forall q | j <= q <= ir :: s[q] <= a)
  }

  /** `do i++; while (ids[i] > a);` stops at the latest at a position known to hold at most a. */
  method ScanUp(ids: array<Id>, i0: nat, a: Id, ghost stop: nat) returns (i: nat)
    requires i0 < stop < ids.Length && ids[stop] <= a
    ensures i0 < i <= stop && ids[i] <= a
    ensures forall q | i0 < q < i :: ids[q] > a
  {
    i := i0 + 1;
    while ids[i] > a
      invariant i0 < i <= stop
      invariant forall q | i0 < q < i :: ids[q] > a
      decreases stop - i
    {
      i := i + 1;
    }
  }

  /** `do j--; while (ids[j] < a);` stops at the latest at a position known to hold at least a. */
  method ScanDown(ids: array<Id>, j0: nat, a: Id, ghost stop: nat) returns (j: nat)
    requires stop < j0 <= ids.Length && ids[stop] >= a
    ensures stop <= j < j0 && ids[j] >= a
    ensures forall q | j < q < j0 :: ids[q] < a
  {
    j := j0 - 1;
    while ids[j] < a
      invariant stop <= j < j0
      invariant forall q | j < q < j0 :: ids[q] < a
      decreases j - stop
    {
      j := j - 1;
    }
  }

  ghost predicate Scanning(s: seq<Id>, l: nat, ir: nat, i: nat, j: nat, a: Id)
    requires 1 <= l && l + SMALL <= ir < |s|
  {
    && s[l + 1] == a
    && Split(s, l, ir, i, j, a)
    && (i < j || (i == j && s[i] == a && l + 1 < i < ir))
    && (i > l + 1 ==> j < ir)
  }

  /** After both scans. */
  ghost predicate Scanned(s: seq<Id>, l: nat, ir: nat, i: nat, j: nat, a: Id)
    requires 1 <= l && l + SMALL <= ir < |s|
  {
    && s[l + 1] == a
    && l + 1 < i <= ir && l + 1 <= j < ir
    && s[i] <= a <= s[j]
    && (forall q | l <= q < i :: s[q] >= a)
    && (forall q | j < q <= ir :: s[q] <= a)
    && (j < i ==> i <= j + 2 && (i == j + 2 ==> s[j + 1] == a))
  }

  /** Both scans, from i and j towards each other. */
  method ScanBoth(ids: array<Id>, l: nat, ir: nat, i0: nat, j0: nat, a: Id) returns (i: nat, j: nat)
    requires 1 <= l && l + SMALL <= ir < ids.Length
    requires Scanning(ids[..], l, ir, i0, j0, a)
    ensures i0 < i && Scanned(ids[..], l, ir, i, j, a)
  {
    i := ScanUp(ids, i0, a, if i0 < j0 then j0 else j0 + 1);
    j := ScanDown(ids, j0, a, if i0 < j0 then i0 else i0 - 1);
    ghost var between := ids[j + 1];
  }

  /** Partition [l, ir] around the pivot at l + 1. */
  method PartitionLoop(ids: array<Id>, l: nat, ir: nat) returns (i: nat, j: nat)
    requires 1 <= l && l + SMALL <= ir < ids.Length
    requires ids[l] >= ids[l + 1] >= ids[ir]
    modifies ids
    ensures Shuffled(old(ids[..]), ids[..], l, ir + 1)
    ensures ids[l + 1] == old(ids[l + 1])
    ensures l + 1 <= j < i <= ir && i <= j + 2
    ensures ids[j] >= ids[l + 1] && (i == j + 2 ==> ids[j + 1] == ids[l + 1])
    ensures forall q | l <= q < j :: ids[q] >= ids[l + 1]
    ensures forall q | j < q <= ir :: ids[q] <= ids[l + 1]
  {
    i, j := l + 1, ir;
    var a := ids[l + 1];
    i, j := ScanBoth(ids, l, ir, i, j, a);
    while i <= j
      invariant Shuffled(old(ids[..]), ids[..], l, ir + 1)
      invariant Scanned(ids[..], l, ir, i, j, a)
      decreases ir - i
    {
      Exchange(ids, l, ir, i, j, a, old(ids[..]));
      i, j := ScanBoth(ids, l, ir, i, j, a);
    }
  }

  method Exchange(ids: array<Id>, l: nat, ir: nat, i: nat, j: nat, a: Id, ghost before: seq<Id>)
    requires 1 <= l && l + SMALL <= ir < ids.Length
    requires i <= j && Scanned(ids[..], l, ir, i, j, a) && Shuffled(before, ids[..], l, ir + 1)
    modifies ids
    ensures Scanning(ids[..], l, ir, i, j, a) && Shuffled(before, ids[..], l, ir + 1)
  {
    ghost var was := ids[..];
    SwapKeeps(was, l, ir, i, j, a);
    Swap(ids, i, j, l, ir + 1);
    ShuffledTrans(before, was, ids[..], l, ir + 1);
  }

  lemma SwapKeeps(s: seq<Id>, l: nat, ir: nat, i: nat, j: nat, a: Id)
    requires 1 <= l && l + SMALL <= ir < |s| && s[l + 1] == a
    requires l + 1 < i <= j < ir && s[i] <= a <= s[j]
    requires forall q | l <= q < i :: s[q] >= a
    requires forall q | j < q <= ir :: s[q] <= a
    ensures Scanning(s[i := s[j]][j := s[i]], l, ir, i, j, a)
  {}

  /** The partition step of `mdb_midl_sort`: [l, j) >= ids[j], [j + 1, ir] <= ids[j], and the
      element between the two parts, if any, equals the pivot. */
  method Partition(ids: array<Id>, l: nat, ir: nat) returns (i: nat, j: nat)
    requires 1 <= l && l + SMALL <= ir < ids.Length
    modifies ids
    ensures Shuffled(old(ids[..]), ids[..], l, ir + 1)
    ensures l + 1 <= j < i <= ir && i <= j + 2
    ensures forall q | l <= q < j :: ids[q] >= ids[j]
    ensures forall q | j < q <= ir :: ids[q] <= ids[j]
    ensures i == j + 2 ==> ids[j + 1] == ids[j]
  {
    MedianOfThree(ids, l, ir);
    ghost var s1 := ids[..];
    i, j := PartitionLoop(ids, l, ir);
    ghost var s2 := ids[..];
    ShuffledTrans(old(ids[..]), s1, s2, l, ir + 1);
    Swap(ids, l + 1, j, l, ir + 1);
    ShuffledTrans(old(ids[..]), s2, ids[..], l, ir + 1);
  }

  // ---------------------------------------------------------------- the sort

  ghost function Pow2(d: nat): (r: nat)
    ensures r >= 1
  {
    if d == 0 then 1 else 2 * Pow2(d - 1)
  }

  lemma {:induction false} Pow2Grows(d: nat)
    requires d >= 28
    ensures Pow2(d) >= 0x1000_0000
  {
    if d > 28 {
      Pow2Grows(d - 1);
    } else {
      assert Pow2(4) == 16;
      assert Pow2(8) == 0x100;
      assert Pow2(12) == 0x1000;
      assert Pow2(16) == 0x1_0000;
      assert Pow2(20) == 0x10_0000;
      assert Pow2(24) == 0x100_0000;
    }
  }

  /** A range [lo, hi] still to be sorted. */
  datatype Range = Range(lo: nat, hi: nat)

  function Size(r: Range): nat { if r.lo <= r.hi then r.hi - r.lo + 1 else 0 }

  ghost predicate InRange(t: Range, p: nat) { t.lo <= p <= t.hi }

  /** Two positions of one pending range. */
  ghost predicate Together(todo: seq<Range>, p: nat, q: nat) {
    exists t :: 0 <= t < |todo| && InRange(todo[t], p) && InRange(todo[t], q)
  }

  /** Every pair that is not in one pending range is in order already. */
  ghost predicate Separated(s: seq<Id>, n: nat, todo: seq<Range>)
    requires n < |s|
  {
    forall p: nat, q: nat | 1 <= p < q <= n :: Together(todo, p, q) || s[p] >= s[q]
  }

  ghost predicate Disjoint(todo: seq<Range>) {
    forall t, u, p: nat | 0 <= t < u < |todo| :: !(InRange(todo[t], p) && InRange(todo[u], p))
  }

  ghost predicate Within(todo: seq<Range>, n: nat) {
    forall t | 0 <= t < |todo| :: 1 <= todo[t].lo <= todo[t].hi + 1 && todo[t].hi <= n
  }

  /** The bound on the stack: each range below is at least as large as all that is above it. */
  ghost predicate Halving(todo: seq<Range>, n: nat) {
    forall t | 0 <= t < |todo| :: Size(todo[t]) * Pow2(t) <= n
  }

  ghost function Effort(todo: seq<Range>): nat {
    if todo == [] then 0 else Effort(todo[..|todo| - 1]) + 2 * Size(todo[|todo| - 1]) + 1
  }

  lemma TogetherSnoc(todo: seq<Range>, r: Range, p: nat, q: nat)
    ensures Together(todo + [r], p, q) <==> Together(todo, p, q) || (InRange(r, p) && InRange(r, q))
  {
    if Together(todo + [r], p, q) {
      var t :| 0 <= t < |todo| + 1 && InRange((todo + [r])[t], p) && InRange((todo + [r])[t], q);
      if t < |todo| { assert todo[t] == (todo + [r])[t]; }
    }
    if Together(todo, p, q) {
      var t :| 0 <= t < |todo| && InRange(todo[t], p) && InRange(todo[t], q);
      assert todo[t] == (todo + [r])[t];
    }
    if InRange(r, p) && InRange(r, q) {
      assert (todo + [r])[|todo|] == r;
    }
  }

  /** With disjoint ranges, a position of the last one is together only with its own range. */
  lemma TogetherLast(todo: seq<Range>, r: Range, p: nat, q: nat)
    requires Disjoint(todo + [r]) && (InRange(r, p) || InRange(r, q))
    ensures !Together(todo, p, q)
  {
    var x := todo + [r];
    forall t | 0 <= t < |todo| ensures !(InRange(todo[t], p) && InRange(todo[t], q)) {
      assert x[t] == todo[t] && x[|todo|] == r;
      assert !(InRange(x[t], p) && InRange(x[|todo|], p));
      assert !(InRange(x[t], q) && InRange(x[|todo|], q));
    }
  }

  /** Permuting inside the last pending range keeps the others in order. */
  lemma SeparatedShuffle(s: seq<Id>, s': seq<Id>, n: nat, todo: seq<Range>, r: Range)
    requires n < |s| && 1 <= r.lo <= r.hi + 1 && r.hi <= n
    requires Separated(s, n, todo + [r]) && Disjoint(todo + [r]) && Shuffled(s, s', r.lo, r.hi + 1)
    ensures Separated(s', n, todo + [r])
  {
    forall p: nat, q: nat | 1 <= p < q <= n ensures Together(todo + [r], p, q) || s'[p] >= s'[q] {
      TogetherSnoc(todo, r, p, q);
      if InRange(r, p) && !InRange(r, q) {
        var p' := ShuffledHas(s, s', r.lo, r.hi + 1, p);
        TogetherSnoc(todo, r, p', q);
        TogetherLast(todo, r, p', q);
      } else if !InRange(r, p) && InRange(r, q) {
        var q' := ShuffledHas(s, s', r.lo, r.hi + 1, q);
        TogetherSnoc(todo, r, p, q');
        TogetherLast(todo, r, p, q');
      }
    }
  }

  /** A sorted range is done. */
  lemma SeparatedDone(s: seq<Id>, n: nat, todo: seq<Range>, r: Range)
    requires n < |s| && r.hi <= n
    requires Separated(s, n, todo + [r]) && Descending(s, r.lo, r.hi + 1)
    ensures Separated(s, n, todo)
  {
    forall p: nat, q: nat | 1 <= p < q <= n ensures Together(todo, p, q) || s[p] >= s[q] {
      TogetherSnoc(todo, r, p, q);
    }
  }

  /** A partitioned range is replaced by its two parts. */
  lemma SeparatedParts(s: seq<Id>, n: nat, todo: seq<Range>, r: Range, a: Range, b: Range)
    requires n < |s| && r.hi <= n && Separated(s, n, todo + [r])
    requires forall p: nat, q: nat | r.lo <= p < q <= r.hi ::
               s[p] >= s[q] || (InRange(a, p) && InRange(a, q)) || (InRange(b, p) && InRange(b, q))
    ensures Separated(s, n, todo + [a] + [b])
  {
    forall p: nat, q: nat | 1 <= p < q <= n ensures Together(todo + [a] + [b], p, q) || s[p] >= s[q] {
      TogetherSnoc(todo, r, p, q);
      TogetherSnoc(todo + [a], b, p, q);
      TogetherSnoc(todo, a, p, q);
    }
  }

  lemma PartsDisjoint(todo: seq<Range>, r: Range, a: Range, b: Range)
    requires Disjoint(todo + [r])
    requires r.lo <= a.lo && a.hi <= r.hi && r.lo <= b.lo && b.hi <= r.hi
    requires a.hi < b.lo || b.hi < a.lo
    ensures Disjoint(todo + [a] + [b])
  {
    var x := todo + [a] + [b];
    var y := todo + [r];
    forall t, u, p: nat | 0 <= t < u < |x| ensures !(InRange(x[t], p) && InRange(x[u], p)) {
      if u < |todo| {
        assert y[t] == x[t] && y[u] == x[u];
      } else if t < |todo| {
        assert y[t] == x[t] && y[|todo|] == r;
      }
    }
  }

  lemma {:induction false} Pow2Halves(size: nat, part: nat, d: nat, n: nat)
    requires size * Pow2(d) <= n && 2 * part <= size
    ensures part * Pow2(d + 1) <= n
  {
    assert part * Pow2(d + 1) == (2 * part) * Pow2(d);
    assert (2 * part) * Pow2(d) <= size * Pow2(d);
  }

  lemma PartFits(size: nat, part: nat, d: nat, n: nat)
    requires size * Pow2(d) <= n && part <= size
    ensures part * Pow2(d) <= n
  {
    assert part * Pow2(d) <= size * Pow2(d);
  }

  lemma LargeTimesPow2(size: nat, d: nat)
    requires size > SMALL && d >= 28
    ensures size * Pow2(d) > INT_MAX
  {
    Pow2Grows(d);
    assert size * Pow2(d) >= 9 * Pow2(d);
  }

  /** The explicit stack never comes near its 64 entries. */
  lemma StackFits(size: nat, d: nat, n: nat)
    requires size * Pow2(d) <= n <= INT_MAX && size > SMALL
    ensures 2 * d + 2 <= 56 < STACK
  {
    if d >= 28 {
      LargeTimesPow2(size, d);
    }
  }

  // ---------------------------------------------------------------- the sort

  /** The stack holds the pending ranges, from index 1 up, low bound first. */
  ghost predicate OnStack(istack: seq<nat>, jstack: nat, todo: seq<Range>) {
    && |istack| == STACK && jstack == 2 * |todo| && jstack < STACK
    && forall t | 0 <= t < |todo| :: todo[t] == Range(istack[2 * t + 1], istack[2 * t + 2])
  }

  /** What holds between two rounds: `todo` is the stack, `cur` the range at hand. */
  ghost predicate Sorting(s: seq<Id>, before: seq<Id>, n: nat, todo: seq<Range>, cur: Range) {
    && n < |s| && Shuffled(before, s, 1, n + 1)
    && Within(todo + [cur], n) && Disjoint(todo + [cur]) && Halving(todo + [cur], n)
    && Separated(s, n, todo + [cur])
  }

  lemma PartsBounded(todo: seq<Range>, cur: Range, big: Range, small: Range, n: nat)
    requires Within(todo + [cur], n) && Halving(todo + [cur], n)
    requires cur.lo <= big.lo <= big.hi <= cur.hi && cur.lo <= small.lo <= small.hi <= cur.hi
    requires 2 * Size(small) <= Size(cur)
    ensures Within(todo + [big] + [small], n) && Halving(todo + [big] + [small], n)
  {
    var was := todo + [cur];
    var x := todo + [big] + [small];
    assert was[|todo|] == cur;
    PartFits(Size(cur), Size(big), |todo|, n);
    Pow2Halves(Size(cur), Size(small), |todo|, n);
    forall t | 0 <= t < |x|
      ensures 1 <= x[t].lo <= x[t].hi + 1 && x[t].hi <= n && Size(x[t]) * Pow2(t) <= n
    {
      if t < |todo| { assert x[t] == was[t]; }
    }
  }

  lemma EffortSnoc(todo: seq<Range>, r: Range)
    ensures Effort(todo + [r]) == Effort(todo) + 2 * Size(r) + 1
  {
    assert (todo + [r])[..|todo|] == todo;
  }

  /** Which parts make a good stack: disjoint, and the one at hand at most half as large. */
  lemma PartsSorting(todo: seq<Range>, cur: Range, big: Range, small: Range, n: nat)
    requires Within(todo + [cur], n) && Disjoint(todo + [cur]) && Halving(todo + [cur], n) && n <= INT_MAX
    requires Size(cur) > SMALL
    requires cur.lo <= big.lo <= big.hi <= cur.hi && cur.lo <= small.lo <= small.hi <= cur.hi
    requires big.hi < small.lo || small.hi < big.lo
    requires Size(small) <= Size(big) && Size(big) + Size(small) < Size(cur)
    ensures Within(todo + [big] + [small], n) && Disjoint(todo + [big] + [small]) && Halving(todo + [big] + [small], n)
    ensures 2 * |todo| + 2 <= 56
    ensures Effort(todo + [big] + [small]) < Effort(todo + [cur])
  {
    PartsBounded(todo, cur, big, small, n);
    PartsDisjoint(todo, cur, big, small);
    assert Size((todo + [cur])[|todo|]) * Pow2(|todo|) <= n;
    StackFits(Size(cur), |todo|, n);
    EffortSnoc(todo + [big], small);
    EffortSnoc(todo, big);
    EffortSnoc(todo, cur);
  }

  lemma Pop(todo: seq<Range>, cur: Range, n: nat)
    requires |todo| > 0 && Within(todo + [cur], n) && Disjoint(todo + [cur]) && Halving(todo + [cur], n)
    ensures todo[..|todo| - 1] + [todo[|todo| - 1]] == todo
    ensures Within(todo, n) && Disjoint(todo) && Halving(todo, n)
    ensures Effort(todo) < Effort(todo + [cur])
  {
    hide *;
    EffortSnoc(todo, cur);
    PopDisjoint(todo, cur);
    PopWithin(todo, cur, n);
    PopHalving(todo, cur, n);
    assert todo[..|todo| - 1] + [todo[|todo| - 1]] == todo;
  }

  lemma PopWithin(todo: seq<Range>, cur: Range, n: nat)
    requires Within(todo + [cur], n)
    ensures Within(todo, n)
  {
    var x := todo + [cur];
    forall t | 0 <= t < |todo| ensures 1 <= todo[t].lo <= todo[t].hi + 1 && todo[t].hi <= n {
      assert x[t] == todo[t];
    }
  }

  lemma PopHalving(todo: seq<Range>, cur: Range, n: nat)
    requires Halving(todo + [cur], n)
    ensures Halving(todo, n)
  {
    hide Size, Pow2;
    var x := todo + [cur];
    forall t | 0 <= t < |todo| ensures Size(todo[t]) * Pow2(t) <= n {
      assert x[t] == todo[t];
    }
  }

  lemma PopDisjoint(todo: seq<Range>, cur: Range)
    requires Disjoint(todo + [cur])
    ensures Disjoint(todo)
  {
    var x := todo + [cur];
    forall t, u, p: nat | 0 <= t < u < |todo| ensures !(InRange(todo[t], p) && InRange(todo[u], p)) {
      assert x[t] == todo[t] && x[u] == todo[u];
    }
  }

  /** Sort the range at hand by insertion, which leaves what is on the stack. */
  method SortSmall(ids: array<Id>, l: nat, ir: nat, ghost n: nat, ghost todo: seq<Range>, ghost before: seq<Id>)
    requires Sorting(ids[..], before, n, todo, Range(l, ir))
    modifies ids
    ensures n < ids.Length && Shuffled(before, ids[..], 1, n + 1)
    ensures todo == [] ==> Descending(ids[..], 1, n + 1)
    ensures todo != [] ==> Sorting(ids[..], before, n, todo[..|todo| - 1], todo[|todo| - 1])
    ensures todo != [] ==> Effort(todo[..|todo| - 1] + [todo[|todo| - 1]]) < Effort(todo + [Range(l, ir)])
  {
    ghost var was := ids[..];
    ghost var cur := Range(l, ir);
    assert (todo + [cur])[|todo|] == cur;
    if l > 1 {
      forall q | l <= q <= ir ensures ids[l - 1] >= ids[q] {
        TogetherSnoc(todo, cur, l - 1, q);
        TogetherLast(todo, cur, l - 1, q);
      }
    }
    InsertionSort(ids, l, ir);
    SmallDone(was, ids[..], before, n, todo, cur);
  }

  lemma SmallDone(was: seq<Id>, s: seq<Id>, before: seq<Id>, n: nat, todo: seq<Range>, cur: Range)
    requires Sorting(was, before, n, todo, cur) && 1 <= cur.lo <= cur.hi + 1 && cur.hi <= n
    requires Shuffled(was, s, cur.lo, cur.hi + 1) && Descending(s, cur.lo, cur.hi + 1)
    ensures Shuffled(before, s, 1, n + 1)
    ensures todo == [] ==> Descending(s, 1, n + 1)
    ensures todo != [] ==> Sorting(s, before, n, todo[..|todo| - 1], todo[|todo| - 1])
    ensures todo != [] ==> Effort(todo[..|todo| - 1] + [todo[|todo| - 1]]) < Effort(todo + [cur])
  {
    SeparatedShuffle(was, s, n, todo, cur);
    SeparatedDone(s, n, todo, cur);
    if todo != [] {
      Pop(todo, cur, n);
    } else {
      forall p, q | 1 <= p < q < n + 1 ensures s[p] >= s[q] {
        assert !Together([], p, q);
      }
    }
  }

  /** Partition the range at hand: the larger part is to wait on the stack. */
  method SortLarge(ids: array<Id>, l: nat, ir: nat, ghost n: nat, ghost todo: seq<Range>, ghost before: seq<Id>)
    returns (i: nat, j: nat)
    requires Sorting(ids[..], before, n, todo, Range(l, ir)) && l + SMALL <= ir && n <= INT_MAX
    modifies ids
    ensures l < j < i <= ir && 2 * |todo| + 2 <= 56
    ensures var (big, small) := Parts(l, ir, i, j);
            && Sorting(ids[..], before, n, todo + [big], small)
            && Effort(todo + [big] + [small]) < Effort(todo + [Range(l, ir)])
  {
    ghost var was := ids[..];
    ghost var cur := Range(l, ir);
    assert (todo + [cur])[|todo|] == cur;
    i, j := Partition(ids, l, ir);
    SeparatedShuffle(was, ids[..], n, todo, cur);
    ghost var (big, small) := Parts(l, ir, i, j);
    SeparatedParts(ids[..], n, todo, cur, big, small);
    PartsSorting(todo, cur, big, small, n);
  }

  /** Which part waits: the right one unless it is the smaller. */
  ghost function Parts(l: nat, ir: nat, i: nat, j: nat): (Range, Range)
    requires l < j < i <= ir
  {
    if ir - i + 1 >= j - l then (Range(i, ir), Range(l, j - 1)) else (Range(l, j - 1), Range(i, ir))
  }

  method Push(istack: array<nat>, jstack: nat, lo: nat, hi: nat, ghost todo: seq<Range>) returns (top: nat)
    requires OnStack(istack[..], jstack, todo) && jstack + 2 < STACK
    modifies istack
    ensures OnStack(istack[..], top, todo + [Range(lo, hi)])
  {
    top := jstack + 2;
    istack[top] := hi;
    istack[top - 1] := lo;
  }

  lemma InitialRange(s: seq<Id>, n: nat)
    requires n < |s|
    ensures Sorting(s, s, n, [], Range(1, n))
  {
    var cur := Range(1, n);
    assert [] + [cur] == [cur];
    assert Pow2(0) == 1;
    forall p: nat, q: nat | 1 <= p < q <= n ensures Together([cur], p, q) {
      assert InRange([cur][0], p);
    }
  }

  method PopRange(istack: array<nat>, jstack: nat, ghost todo: seq<Range>) returns (lo: nat, hi: nat, top: nat)
    requires OnStack(istack[..], jstack, todo) && jstack > 0
    ensures Range(lo, hi) == todo[|todo| - 1]
    ensures OnStack(istack[..], top, todo[..|todo| - 1])
  {
    hi := istack[jstack];
    lo := istack[jstack - 1];
    top := jstack - 2;
  }

  /** One round on a large range: partition it, and put the larger part on the stack. */
  method PartitionRound(ids: array<Id>, istack: array<nat>, jstack: nat, l: nat, ir: nat,
                        ghost n: nat, ghost todo: seq<Range>, ghost before: seq<Id>)
    returns (top: nat, l': nat, ir': nat, ghost todo': seq<Range>)
    requires OnStack(istack[..], jstack, todo)
    requires Sorting(ids[..], before, n, todo, Range(l, ir)) && l + SMALL <= ir && n <= INT_MAX
    modifies ids, istack
    ensures OnStack(istack[..], top, todo')
    ensures Sorting(ids[..], before, n, todo', Range(l', ir'))
    ensures Effort(todo' + [Range(l', ir')]) < Effort(todo + [Range(l, ir)])
  {
    var i, j := SortLarge(ids, l, ir, n, todo, before);
    ghost var s := ids[..];
    ghost var (big, small) := Parts(l, ir, i, j);
    todo' := todo + [big];
    if ir - i + 1 >= j - l {
      top := Push(istack, jstack, i, ir, todo);
      l', ir' := l, j - 1;
    } else {
      top := Push(istack, jstack, l, j - 1, todo);
      l', ir' := i, ir;
    }
    assert ids[..] == s;
    assert Range(l', ir') == small;
  }

  /** `mdb_midl_sort`: the ids behind the count at index 0 are put in descending order. */
  method Sort(ids: array<Id>)
    requires 1 <= ids.Length && ids[0] < ids.Length && ids[0] <= INT_MAX
    modifies ids
    ensures ids[0] == old(ids[0])
    ensures Descending(ids[..], 1, ids[0] + 1)
    ensures Shuffled(old(ids[..]), ids[..], 1, ids[0] + 1)
  {
    var istack := new nat[STACK];
    var ir: nat, l: nat, jstack: nat := ids[0], 1, 0;
    ghost var n: nat, before, todo: seq<Range> := ids[0], ids[..], [];
    InitialRange(before, n);
    while true
      invariant fresh(istack) && OnStack(istack[..], jstack, todo)
      invariant Sorting(ids[..], before, n, todo, Range(l, ir))
      decreases Effort(todo + [Range(l, ir)])
    {
      if ir < l + SMALL {
        SortSmall(ids, l, ir, n, todo, before);
        if jstack == 0 { break; }
        l, ir, jstack := PopRange(istack, jstack, todo);
        todo := todo[..|todo| - 1];
      } else {
        jstack, l, ir, todo := PartitionRound(ids, istack, jstack, l, ir, n, todo, before);
      }
    }
  }
}
