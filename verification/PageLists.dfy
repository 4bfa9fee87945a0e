/** Growable lists of page numbers (midl.c), and what mdb.c does with them in place: find and
    take a run of consecutive pages, and put a run back. */
module PageLists {
  import opened IdSort
  import opened IdLists
  import Seqs

  /** The pages pg, pg + 1, .. pg + n - 1, largest first. */
  function Run(pg: nat, n: nat): (r: seq<nat>)
    ensures |r| == n && forall q | 0 <= q < n :: r[q] == pg + n - 1 - q
  {
    seq(n, q requires 0 <= q < n => pg + n - 1 - q)
  }

  /** `Run`, for page numbers within range. */
  function Pages(pg: nat, n: nat): (r: seq<Id>)
    requires pg + n <= ID_MAX
    ensures r == Run(pg, n)
  {
    seq(n, q requires 0 <= q < n => pg + n - 1 - q)
  }

  /** All of pg .. pg + n - 1 are in the list. */
  ghost predicate HasRun(s: seq<Id>, pg: nat, n: nat) {
    forall x: nat | pg <= x < pg + n :: x in s
  }

  // ---------------------------------------------------------------- runs in strict lists

  /** In a strictly descending list the distance of positions bounds the distance of ids. */
  lemma {:induction false} StrictGap(s: seq<Id>, p: nat, q: nat)
    requires Strict(s) && p <= q < |s|
    ensures s[p] >= s[q] + (q - p)
    decreases q - p
  {
    if p < q {
      StrictGap(s, p, q - 1);
      assert s[q - 1] > s[q];
    }
  }

  /** The single test on both ends is enough: the ids in between are consecutive. */
  lemma EndsMakeRun(s: seq<Id>, p: nat, q: nat)
    requires Strict(s) && p <= q < |s| && s[p] == s[q] + (q - p)
    ensures forall x | p <= x <= q :: s[x] == s[q] + (q - x)
  {
    forall x | p <= x <= q ensures s[x] == s[q] + (q - x) {
      StrictGap(s, p, x);
      StrictGap(s, x, q);
    }
  }

  /** A run in the list occupies consecutive positions. */
  lemma {:induction false} RunPositions(s: seq<Id>, pg: nat, n: nat) returns (q: nat)
    requires Strict(s) && n > 0 && HasRun(s, pg, n)
    ensures n - 1 <= q < |s| && s[q] == pg && s[q - (n - 1)] == pg + n - 1
    decreases n
  {
    assert pg in s;
    q :| 0 <= q < |s| && s[q] == pg;
    if n > 1 {
      var above := RunPositions(s, pg + 1, n - 1);
      if above < q {
        StrictGap(s, above, q);
      } else {
        StrictGap(s, q, above);
      }
    }
  }

  // ---------------------------------------------------------------- search and take

  /** The search of `mdb_page_alloc`: the tail-most position (counted from 1) of a run of `num`
      pages, 0 if there is none. */
  method FindRun(s: seq<Id>, num: nat) returns (i: nat)
    requires num >= 1 && Strict(s)
    ensures i == 0 ==> forall pg: nat :: !HasRun(s, pg, num)
    ensures i != 0 ==> num <= i <= |s| && s[i - num..i] == Run(s[i - 1], num)
    ensures i != 0 ==> forall pg: nat | HasRun(s, pg, num) :: s[i - 1] <= pg
  {
    var n2 := num - 1;
    i := |s|;
    while i > n2
      invariant i <= |s|
      invariant forall q, b | i <= q < |s| && b == q - n2 && 0 <= b :: s[b] != s[q] + n2
    {
      var pgno: int := s[i - 1];
      if s[i - n2 - 1] as int == pgno + n2 {
        EndsMakeRun(s, i - 1 - n2, i - 1);
        assert s[i - num..i] == Run(s[i - 1], num);
        forall pg: nat | HasRun(s, pg, num) ensures s[i - 1] <= pg {
          var q := RunPositions(s, pg, num);
          if q < i - 1 { assert s[q] > s[i - 1]; }
        }
        return;
      }
      i := i - 1;
    }
    forall pg: nat ensures !HasRun(s, pg, num) {
      if HasRun(s, pg, num) {
        var q := RunPositions(s, pg, num);
      }
    }
    i := 0;
  }

  /** The list without the run of `num` pages that ends at position i. */
  function Taken(s: seq<Id>, i: nat, num: nat): seq<Id>
    requires num <= i <= |s|
  {
    s[..i - num] + s[i..]
  }

  /** Taking the run at i: truncate the list and move the stragglers down. */
  method TakeRun(ids: array<Id>, i0: nat, num: nat)
    requires IsList(ids[..]) && 1 <= num <= i0 <= Count(ids[..])
    modifies ids
    ensures IsList(ids[..])
    ensures Ids(ids[..]) == Taken(old(Ids(ids[..])), i0, num)
  {
    ghost var s := Ids(ids[..]);
    assert forall p | 0 <= p < |s| :: s[p] == ids[p + 1];
    var mopLen: nat := ids[0] - num;
    ids[0] := mopLen;
    var i, j := i0, i0 - num;
    while j < mopLen
      invariant i == j + num && i0 - num <= j <= mopLen == |s| - num
      invariant ids[0] == mopLen
      invariant forall p | 0 <= p < i0 - num :: ids[p + 1] == s[p]
      invariant forall q | i0 - num < q <= j :: ids[q] == s[q - 1 + num]
      invariant forall p | i <= p < |s| :: ids[p + 1] == s[p]
    {
      j := j + 1;
      i := i + 1;
      ids[j] := ids[i];
    }
    ghost var r := s[..i0 - num] + s[i0..];
    assert forall p | 0 <= p < mopLen :: Ids(ids[..])[p] == ids[p + 1] == r[p];
  }

  lemma TakenStrict(s: seq<Id>, i: nat, num: nat)
    requires Strict(s) && num <= i <= |s|
    ensures Strict(Taken(s, i, num))
    ensures multiset(Taken(s, i, num)) == multiset(s) - multiset(s[i - num..i])
  {
    var a, b := i - num, i;
    var r := s[..a] + s[b..];
    assert s == s[..a] + s[a..b] + s[b..];
    forall p, q | 0 <= p < q < |r| ensures r[p] > r[q] {
      assert r[p] == s[if p < a then p else p + (b - a)];
      assert r[q] == s[if q < a then q else q + (b - a)];
    }
  }

  // ---------------------------------------------------------------- put back

  /** The number of leading ids that are not smaller than pg. */
  function Above(s: seq<Id>, pg: nat): (at: nat)
    ensures at <= |s| && (forall q | 0 <= q < at :: s[q] >= pg)
    ensures at < |s| ==> s[at] < pg
  {
    if s == [] || s[0] < pg then 0 else 1 + Above(s[1..], pg)
  }

  /** The list with the run pg .. pg + n - 1 inserted in order. */
  function WithRun(s: seq<Id>, pg: nat, n: nat): seq<Id>
    requires pg + n <= ID_MAX
  {
    s[..Above(s, pg)] + Pages(pg, n) + s[Above(s, pg)..]
  }

  lemma {:induction false} AboveIs(s: seq<Id>, pg: nat, at: nat)
    requires Strict(s) && at <= |s| && (at > 0 ==> s[at - 1] >= pg) && forall p | at <= p < |s| :: s[p] < pg
    ensures Above(s, pg) == at
    decreases |s|
  {
    if at > 0 {
      assert s[0] >= s[at - 1];
      AboveIs(s[1..], pg, at - 1);
    }
  }

  /** First loop of the insertion: move the smaller ids up by `n`. */
  method OpenGap(ids: array<Id>, pg: nat, n: nat) returns (i: nat)
    requires 0 < ids.Length && ids[0] + n < ids.Length
    modifies ids
    ensures ids[0] == old(ids[0]) && i <= ids[0]
    ensures forall q | 1 <= q <= i :: ids[q] == old(ids[q])
    ensures forall q | i + n < q <= ids[0] + n :: ids[q] == old(ids[..])[q - n]
    ensures forall q | i < q <= ids[0] :: old(ids[..])[q] < pg
    ensures i > 0 ==> ids[i] >= pg
  {
    ghost var w := ids[..];
    var j: nat := ids[0] + n;
    i := ids[0];
    while i > 0 && ids[i] < pg
      invariant i <= w[0] && j == i + n && ids[0] == w[0]
      invariant forall q | 1 <= q <= i :: ids[q] == w[q]
      invariant forall q | j < q <= w[0] + n :: ids[q] == w[q - n]
      invariant forall q | i < q <= w[0] :: w[q] < pg
    {
      ids[j] := ids[i];
      j := j - 1;
      i := i - 1;
    }
  }

  /** Second loop: fill the gap with the run. */
  method FillGap(ids: array<Id>, i: nat, pg0: nat, n: nat)
    requires i + n < ids.Length && pg0 + n <= ID_MAX
    modifies ids
    ensures ids[i + 1..i + n + 1] == Run(pg0, n)
    ensures forall q | 0 <= q <= i || i + n < q < ids.Length :: ids[q] == old(ids[q])
  {
    var pg := pg0;
    var j := i + n;
    while j > i
      invariant i <= j <= i + n && pg == pg0 + (i + n - j)
      invariant forall q | j < q <= i + n :: ids[q] == pg0 + (i + n - q)
      invariant forall q | 0 <= q <= i || i + n < q < ids.Length :: ids[q] == old(ids[q])
    {
      ids[j] := pg;
      pg := pg + 1;
      j := j - 1;
    }
  }

  /** `mdb_ovpage_free`, when the pages are this transaction's own: insert the run in order. */
  method InsertRun(ids: array<Id>, pg: nat, ovpages: nat)
    requires IsList(ids[..]) && Strict(Ids(ids[..]))
    requires Count(ids[..]) + ovpages < ids.Length <= ID_MAX && pg + ovpages <= ID_MAX
    requires forall x: nat | pg <= x < pg + ovpages :: x !in Ids(ids[..])
    modifies ids
    ensures IsList(ids[..]) && Strict(Ids(ids[..]))
    ensures Ids(ids[..]) == WithRun(old(Ids(ids[..])), pg, ovpages)
  {
    ghost var w, s := ids[..], Ids(ids[..]);
    hide Strict, IsList;
    var i := OpenGap(ids, pg, ovpages);
    GapPlace(w, s, pg, i);
    FillGap(ids, i, pg, ovpages);
    ids[0] := ids[0] + ovpages;
    assert forall q | 1 <= q <= i :: ids[q] == w[q];
    assert forall q | i + ovpages < q <= w[0] + ovpages :: ids[q] == w[q - ovpages];
    InsertedStrict(s, i, pg, ovpages);
    InsertedIs(ids[..], w, i, pg, ovpages);
  }

  /** Where the gap is, in terms of the list. */
  lemma GapPlace(w: seq<Id>, s: seq<Id>, pg: nat, i: nat)
    requires IsList(w) && s == Ids(w) && Strict(s) && i <= Count(w)
    requires (forall q | i < q <= w[0] :: w[q] < pg) && (i > 0 ==> w[i] >= pg)
    ensures Above(s, pg) == i && (i > 0 ==> s[i - 1] >= pg) && forall p | i <= p < |s| :: s[p] < pg
  {
    assert forall p | 0 <= p < |s| :: s[p] == w[p + 1];
    AboveIs(s, pg, i);
  }

  lemma InsertedIs(ids: seq<Id>, w: seq<Id>, at: nat, pg: nat, n: nat)
    requires IsList(w) && at <= Count(w) && Count(w) + n < |ids| && ids[0] == w[0] + n
    requires forall q | 1 <= q <= at :: ids[q] == w[q]
    requires ids[at + 1..at + n + 1] == Run(pg, n)
    requires forall q | at + n < q <= w[0] + n :: ids[q] == w[q - n]
    ensures IsList(ids) && Ids(ids) == Ids(w)[..at] + Run(pg, n) + Ids(w)[at..]
  {
    var m := Count(w);
    assert ids[1..at + 1] == Ids(w)[..at];
    assert ids[at + n + 1..m + n + 1] == Ids(w)[at..];
    Three(ids, 1, at + 1, at + n + 1, m + n + 1);
  }

  lemma Three(s: seq<Id>, a: nat, b: nat, c: nat, d: nat)
    requires a <= b <= c <= d <= |s|
    ensures s[a..d] == s[a..b] + s[b..c] + s[c..d]
  {}

  lemma InsertedStrict(s: seq<Id>, at: nat, pg: nat, n: nat)
    requires Strict(s) && at <= |s| && pg + n <= ID_MAX
    requires at > 0 ==> s[at - 1] >= pg
    requires forall p | at <= p < |s| :: s[p] < pg
    requires forall x: nat | pg <= x < pg + n :: x !in s
    ensures Strict(s[..at] + Pages(pg, n) + s[at..])
  {
    var r := s[..at] + Pages(pg, n) + s[at..];
    forall p | 0 <= p < at ensures s[p] >= pg + n {
      assert s[p] >= s[at - 1];
      assert s[p] in s;
    }
    assert forall p | 0 <= p < |r| :: r[p] == if p < at then s[p] else if p < at + n then pg + n - 1 - (p - at) else s[p - n];
  }

  lemma WithRunIs(s: seq<Id>, pg: nat, n: nat)
    requires Strict(s) && pg + n <= ID_MAX && forall x: nat | pg <= x < pg + n :: x !in s
    ensures multiset(WithRun(s, pg, n)) == multiset(s) + multiset(Pages(pg, n))
    ensures Strict(WithRun(s, pg, n))
  {
    var at := Above(s, pg);
    assert s == s[..at] + s[at..];
    AboveBelow(s, pg);
    InsertedStrict(s, at, pg, n);
  }

  lemma AboveBelow(s: seq<Id>, pg: nat)
    requires Strict(s)
    ensures forall p | Above(s, pg) <= p < |s| :: s[p] < pg
  {
    var at := Above(s, pg);
    forall p | at <= p < |s| ensures s[p] < pg {
      assert p > at ==> s[p] < s[at];
    }
  }

  // ---------------------------------------------------------------- merging and sorting, as values

  /** The descending merge of two descending lists. */
  function MergeDown(a: seq<Id>, b: seq<Id>): seq<Id> {
    if a == [] then b
    else if b == [] then a
    else if a[0] >= b[0] then [a[0]] + MergeDown(a[1..], b)
    else [b[0]] + MergeDown(a, b[1..])
  }

  lemma BagFirst(s: seq<Id>)
    requires s != []
    ensures multiset(s) == multiset{s[0]} + multiset(s[1..])
  {
    Seqs.HeadTail(s);
  }

  lemma BagCons(x: Id, s: seq<Id>)
    ensures multiset([x] + s) == multiset{x} + multiset(s)
  {}

  lemma {:induction false} MergeDownBag(a: seq<Id>, b: seq<Id>)
    ensures multiset(MergeDown(a, b)) == multiset(a) + multiset(b)
    decreases |a| + |b|
  {
    if a != [] && b != [] {
      if a[0] >= b[0] {
        MergeDownBag(a[1..], b);
        BagFirst(a);
        BagCons(a[0], MergeDown(a[1..], b));
      } else {
        MergeDownBag(a, b[1..]);
        BagFirst(b);
        BagCons(b[0], MergeDown(a, b[1..]));
      }
    }
  }

  lemma {:induction false} MergeDownFalls(a: seq<Id>, b: seq<Id>)
    requires Falling(a) && Falling(b)
    ensures Falling(MergeDown(a, b))
    decreases |a| + |b|
  {
    if a != [] && b != [] {
      if a[0] >= b[0] {
        MergeDownFalls(a[1..], b);
        MergeDownBag(a[1..], b);
        FrontFalls(a[0], MergeDown(a[1..], b), a[1..], b);
      } else {
        MergeDownFalls(a, b[1..]);
        MergeDownBag(a, b[1..]);
        FrontFalls(b[0], MergeDown(a, b[1..]), a, b[1..]);
      }
    }
  }

  lemma FrontFalls(x: Id, m: seq<Id>, a: seq<Id>, b: seq<Id>)
    requires multiset(m) == multiset(a) + multiset(b) && Falling(m)
    requires (forall q | 0 <= q < |a| :: x >= a[q]) && (forall q | 0 <= q < |b| :: x >= b[q])
    ensures Falling([x] + m)
  {
    forall q | 0 <= q < |m| ensures x >= m[q] {
      var y := m[q];
      assert y in multiset(m);
      assert y in multiset(a) || y in multiset(b);
      assert y in a || y in b;
    }
  }

  /** The largest element comes first. */
  lemma FirstLargest(a: seq<Id>, b: seq<Id>)
    requires a != [] && b != [] && Falling(a) && multiset(a) == multiset(b)
    ensures a[0] >= b[0]
  {
    assert b[0] in multiset(b);
    assert b[0] in multiset(a);
    var q :| 0 <= q < |a| && a[q] == b[0];
  }

  /** A multiset has one descending arrangement. */
  lemma {:induction false} FallingUnique(a: seq<Id>, b: seq<Id>)
    requires Falling(a) && Falling(b) && multiset(a) == multiset(b)
    ensures a == b
    decreases |a|
  {
    SameSize(a, b);
    if a != [] {
      FirstLargest(a, b);
      FirstLargest(b, a);
      BagFirst(a);
      BagFirst(b);
      SameRest(multiset{a[0]}, multiset(a[1..]), multiset(b[1..]));
      FallingUnique(a[1..], b[1..]);
      Seqs.HeadTail(a);
      Seqs.HeadTail(b);
    }
  }

  lemma SameSize(a: seq<Id>, b: seq<Id>)
    requires multiset(a) == multiset(b)
    ensures |a| == |b|
  {
    assert |multiset(a)| == |a| && |multiset(b)| == |b|;
  }

  lemma SameRest(x: multiset<Id>, a: multiset<Id>, b: multiset<Id>)
    requires x + a == x + b
    ensures a == b
  {
    assert a == (x + a) - x && b == (x + b) - x;
  }

  /** Without repetitions, descending is strictly descending. */
  lemma FallingStrict(s: seq<Id>)
    requires Falling(s) && forall x | x in multiset(s) :: multiset(s)[x] == 1
    ensures Strict(s)
  {
    forall p, q | 0 <= p < q < |s| ensures s[p] > s[q] {
      if s[p] == s[q] { Twice(s, p, q); }
    }
  }

  lemma Twice(s: seq<Id>, p: nat, q: nat)
    requires p < q < |s| && s[p] == s[q]
    ensures s[p] in multiset(s) && multiset(s)[s[p]] >= 2
  {
    assert s == s[..p] + [s[p]] + s[p + 1..q] + [s[q]] + s[q + 1..];
  }

  /** The ids in descending order. */
  function SortDown(s: seq<Id>): seq<Id> {
    if s == [] then [] else MergeDown([s[0]], SortDown(s[1..]))
  }

  lemma {:induction false} SortDownIs(s: seq<Id>)
    ensures multiset(SortDown(s)) == multiset(s) && Falling(SortDown(s))
  {
    if s != [] {
      SortDownIs(s[1..]);
      assert s == [s[0]] + s[1..];
      MergeDownBag([s[0]], SortDown(s[1..]));
      MergeDownFalls([s[0]], SortDown(s[1..]));
    }
  }

  // ---------------------------------------------------------------- lists that grow

  lemma TopIs(s: seq<Id>, off: nat, loose: seq<Id>)
    requires off + |loose| < |s| && s[off] == |loose|
    requires forall q | off < q <= off + |loose| :: s[q] == loose[q - off - 1]
    ensures IsList(s[off..]) && Ids(s[off..]) == loose
  {
    var r := Ids(s[off..]);
    forall k | 0 <= k < |loose| ensures r[k] == loose[k] {
      assert r[k] == s[off + 1 + k];
    }
  }

  lemma ListAppended(w: seq<Id>, s: seq<Id>, n: nat, app: seq<Id>, more: nat)
    requires IsList(w) && Count(w) == n && |s| == |w| && n + more < |s| && s[0] == n + more
    requires IsList(app) && Count(app) == more
    requires (forall q | 1 <= q <= n :: s[q] == w[q]) && s[n + 1..n + more + 1] == app[1..more + 1]
    ensures IsList(s) && Ids(s) == Ids(w) + Ids(app)
  {
    Three(s, 1, 1, n + 1, n + more + 1);
    assert s[1..n + 1] == w[1..n + 1];
  }

  lemma RangeAppended(w: seq<Id>, s: seq<Id>, len: nat, id: Id, n: nat)
    requires IsList(w) && Count(w) == len && |s| == |w| && len + n < |s| && s[0] == len + n
    requires s[len + 1..len + n + 1] == Run(id, n) && forall q | 1 <= q <= len :: s[q] == w[q]
    ensures IsList(s) && Ids(s) == Ids(w) + Run(id, n)
  {
    Three(s, 1, 1, len + 1, len + n + 1);
    assert s[1..len + 1] == w[1..len + 1];
  }

  /** What the bitwise or of n with MDB_IDL_UM_MAX, which is all ones, comes to. */
  function OrUmMax(n: nat): (r: nat)
    ensures n <= r
  {
    n / (UM_MAX + 1) * (UM_MAX + 1) + UM_MAX
  }

  /** An allocated list: ids.Length - 1 is the capacity kept at index -1. */
  class IdList {
    var ids: array<Id>

    ghost predicate Valid()
      reads this, ids
    {
      IsList(ids[..]) && ids.Length <= ID_MAX
    }

    ghost function List(): seq<Id>
      requires Valid()
      reads this, ids
    {
      Ids(ids[..])
    }

    /** `mdb_midl_alloc`. */
    constructor (num: nat)
      requires num < ID_MAX
      ensures Valid() && fresh(ids) && List() == [] && ids.Length == num + 1
    {
      ids := new Id[num + 1](_ => 0);
    }

    /** Move the list to a larger array (realloc). */
    method Resize(cap: nat)
      requires Valid() && Count(ids[..]) <= cap < ID_MAX
      modifies this
      ensures Valid() && fresh(ids) && ids.Length == cap + 1 && List() == old(List())
    {
      var was := ids;
      var n := was[0];
      ids := new Id[cap + 1](_ => 0);
      var k := 0;
      while k <= n
        invariant 0 <= k <= n + 1 && n < was.Length && n <= cap
        invariant fresh(ids) && ids.Length == cap + 1 && was == old(ids) && was[..] == old(ids[..])
        invariant forall q | 0 <= q < k :: ids[q] == was[q]
      {
        ids[k] := was[k];
        k := k + 1;
      }
      assert ids[..][1..n + 1] == was[..][1..n + 1];
    }

    /** `mdb_midl_need`: room for num more ids. */
    method Need(num: nat)
      requires Valid() && Count(ids[..]) + num <= INT_MAX
      modifies this
      ensures Valid() && List() == old(List()) && Count(ids[..]) + num < ids.Length
      ensures ids == old(ids) || fresh(ids)
    {
      var n: nat := num + ids[0];
      if n > ids.Length - 1 {
        n := (n + n / 4 + (256 + 2)) / 256 * 256;
        Resize(n - 2);
      }
    }

    /** `mdb_midl_append`. */
    method Append(id: Id)
      requires Valid() && ids.Length + UM_MAX < INT_MAX
      modifies this, ids
      ensures Valid() && List() == old(List()) + [id]
      ensures ids == old(ids) || fresh(ids)
      ensures ids.Length <= old(ids.Length) || ids.Length == |old(List())| + 1 + UM_MAX
    {
      if ids[0] >= ids.Length - 1 {
        Resize(ids.Length - 1 + UM_MAX);
      }
      ghost var was := List();
      var n := ids[0] + 1;
      ids[0] := n;
      ids[n] := id;
      assert ids[..][1..n] == was;
    }

    /** `mdb_midl_append_list`. */
    method AppendList(app: array<Id>)
      requires Valid() && IsList(app[..]) && app != ids && ids.Length + Count(app[..]) < INT_MAX
      modifies this, ids
      ensures Valid() && List() == old(List() + Ids(app[..]))
      ensures ids == old(ids) || fresh(ids)
    {
      var n: nat, more: nat := ids[0], app[0];
      if n + more >= ids.Length - 1 {
        Resize(ids.Length - 1 + more);
      }
      ghost var w := ids[..];
      CopyIn(ids, n, app, more);
      ghost var x := ids[..];
      ids[0] := n + more;
      assert ids[..][n + 1..n + more + 1] == x[n + 1..n + more + 1];
      ListAppended(w, ids[..], n, app[..], more);
    }

    /** memcpy of the first `more` ids of `app` after the first n ids. */
    static method CopyIn(ids: array<Id>, n: nat, app: array<Id>, more: nat)
      requires ids != app && n + more < ids.Length && more < app.Length
      modifies ids
      ensures forall q | 0 <= q <= n :: ids[q] == old(ids[q])
      ensures ids[..][n + 1..n + more + 1] == app[..][1..more + 1]
    {
      var k := 0;
      while k < more
        invariant 0 <= k <= more
        invariant forall q | 0 <= q <= n :: ids[q] == old(ids[q])
        invariant forall q | n < q <= n + k :: ids[q] == app[q - n]
      {
        ids[n + k + 1] := app[k + 1];
        k := k + 1;
      }
    }

    /** `mdb_midl_append_range`: the pages id .. id + n - 1, largest first. */
    method AppendRange(id: Id, n: nat)
      requires Valid() && ids.Length + OrUmMax(n) < INT_MAX && id + n <= ID_MAX
      modifies this, ids
      ensures Valid() && List() == old(List()) + Run(id, n)
      ensures ids == old(ids) || fresh(ids)
    {
      var len: nat := ids[0];
      if len + n > ids.Length - 1 {
        Resize(ids.Length - 1 + OrUmMax(n));
      }
      ghost var w := ids[..];
      FillGap(ids, len, id, n);
      ids[0] := len + n;
      RangeAppended(w, ids[..], len, id, n);
    }

    /** Merge the list at the top of the same array, as `mdb_freelist_save` does with the loose pages
        after asking for twice their number and one. */
    method MergeTop(loose: seq<Id>)
      requires Valid() && Falling(List()) && Falling(loose)
      requires Count(ids[..]) + 2 * |loose| + 1 <= INT_MAX
      modifies this, ids
      ensures Valid() && List() == MergeDown(old(List()), loose)
      ensures ids == old(ids) || fresh(ids)
    {
      var count := |loose|;
      Need(2 * count + 1);
      ghost var was := List();
      var off := ids.Length - 1 - count;
      WriteTop(loose, off);
      label written:
      XMerge(ids, ids, off);
      MergeDownBag(was, loose);
      MergeDownFalls(was, loose);
      FallingUnique(List(), MergeDown(was, loose));
    }

    /** A second list, above the first one in the same array. */
    method WriteTop(loose: seq<Id>, off: nat)
      requires Valid() && Count(ids[..]) < off && off + |loose| < ids.Length
      modifies ids
      ensures Valid() && List() == old(List())
      ensures IsList(ids[off..]) && Ids(ids[off..]) == loose && Count(ids[off..]) == |loose|
    {
      var count := |loose|;
      var k := 0;
      while k < count
        invariant 0 <= k <= count
        invariant forall q | 0 <= q <= off :: ids[q] == old(ids[q])
        invariant forall q | off < q <= off + k :: ids[q] == loose[q - off - 1]
      {
        ids[off + k + 1] := loose[k];
        k := k + 1;
      }
      ids[off] := count;
      assert ids[..][1..ids[0] + 1] == old(ids[..])[1..ids[0] + 1];
      TopIs(ids[..], off, loose);
      assert ids[off..] == ids[..][off..];
    }
  }
}
