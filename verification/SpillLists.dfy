/** Moving pages between the dirty list and the spill list of a transaction (mdb_page_dirty,
    mdb_page_unspill, mdb_page_spill, mdb.c; mdb_mid2l_insert, midl.c). */
module SpillLists {
  import opened Options
  import opened IdSort
  import opened IdLists
  import opened PageLists
  import opened DirtyLists
  import opened NestedCommit
  import Seqs

  // ---------------------------------------------------------------- inserting into a dirty list

  ghost function WithEntry(s: seq<Id2>, k: nat, e: Id2): seq<Id2>
    requires k <= |s|
  {
    s[..k] + [e] + s[k..]
  }

  lemma WithEntryRises(s: seq<Id2>, k: nat, e: Id2)
    requires Rising(s) && k <= |s| && e.mid > 0
    requires (forall q | 0 <= q < k :: s[q].mid < e.mid) && (forall q | k <= q < |s| :: e.mid < s[q].mid)
    ensures Rising(WithEntry(s, k, e))
  {
    var r := WithEntry(s, k, e);
    assert forall q | 0 <= q < |r| :: r[q] == if q < k then s[q] else if q == k then e else s[q - 1];
  }

  lemma WithEntryParts(s: seq<Id2>, k: nat, e: Id2)
    requires k <= |s|
    ensures var r := WithEntry(s, k, e);
            |r| == |s| + 1 && r[k] == e && r[..k] + r[k + 1..] == s
  {}

  lemma WithEntryGet(s: seq<Id2>, k: nat, e: Id2)
    requires Rising(s) && k <= |s| && e.mid > 0
    requires (forall q | 0 <= q < k :: s[q].mid < e.mid) && (forall q | k <= q < |s| :: e.mid < s[q].mid)
    ensures forall p: Id :: Get(WithEntry(s, k, e), p) == if p == e.mid then Some(e.ptr) else Get(s, p)
  {
    hide *;
    var r := WithEntry(s, k, e);
    WithEntryRises(s, k, e);
    WithEntryParts(s, k, e);
    forall p: Id ensures Get(r, p) == if p == e.mid then Some(e.ptr) else Get(s, p) {
      WithoutGet(r, k, p);
      GetAt(r, k);
    }
  }

  lemma EntryInserted(w: seq<Id2>, d: seq<Id2>, x: nat, e: Id2)
    requires IsList2(w) && |d| == |w| && 1 <= x <= w[0].mid + 1 && w[0].mid + 1 < |w|
    requires d[0].mid == w[0].mid + 1 && d[x] == e
    requires forall q | 1 <= q < x :: d[q] == w[q]
    requires forall q | x < q <= w[0].mid + 1 :: d[q] == w[q - 1]
    ensures IsList2(d) && Entries(d) == WithEntry(Entries(w), x - 1, e)
  {
    var s, r := Entries(w), Entries(d);
    var u := WithEntry(s, x - 1, e);
    assert forall q | 0 <= q < |s| :: s[q] == w[q + 1];
    assert forall q | 0 <= q < |r| :: r[q] == d[q + 1];
    forall q | 0 <= q < |r| ensures r[q] == u[q] {
      if q + 1 > x { assert r[q] == w[q]; }
    }
  }

  /** The entries from position x on move up by one, and e takes the place. */
  method ShiftIn(ids: array<Id2>, x: nat, e: Id2)
    requires 0 < ids.Length && 1 <= x <= ids[0].mid + 1 < ids.Length && ids[0].mid < ID_MAX
    modifies ids
    ensures ids[0] == Id2(old(ids[0].mid) + 1, old(ids[0].ptr)) && ids[x] == e
    ensures forall q | 1 <= q < x :: ids[q] == old(ids[q])
    ensures forall q | x < q <= old(ids[0].mid) + 1 :: ids[q] == old(ids[q - 1])
  {
    var n: nat := ids[0].mid + 1;
    ids[0] := Id2(n, ids[0].ptr);
    var i := n;
    while i > x
      invariant x <= i <= n < ids.Length && ids[0] == Id2(n, old(ids[0].ptr))
      invariant forall q | 1 <= q <= i && q < n :: ids[q] == old(ids[q])
      invariant forall q | i < q <= n :: ids[q] == old(ids[q - 1])
    {
      ids[i] := ids[i - 1];
      i := i - 1;
    }
    ids[x] := e;
  }

  /** `mdb_mid2l_insert`: -1 when the page is there already, -2 when the list is full. */
  method Insert2(ids: array<Id2>, e: Id2) returns (rc: int)
    requires UM_MAX < ids.Length && IsList2(ids[..]) && Rising(Entries(ids[..])) && e.mid > 0
    modifies ids
    ensures IsList2(ids[..]) && Rising(Entries(ids[..])) && (rc == 0 || rc == -1 || rc == -2)
    ensures rc == -1 <==> Get(old(Entries(ids[..])), e.mid) != None
    ensures rc == -2 ==> |old(Entries(ids[..]))| >= UM_MAX
    ensures rc != 0 ==> ids[..] == old(ids[..])
    ensures rc == 0 ==> |Entries(ids[..])| == |old(Entries(ids[..]))| + 1
    ensures rc == 0 ==>
              forall p: Id :: Get(Entries(ids[..]), p) == if p == e.mid then Some(e.ptr) else Get(old(Entries(ids[..])), p)
  {
    hide Rising, Get;
    ghost var w := ids[..];
    ghost var s := Entries(w);
    var x := Search2(ids, e.mid);
    DirtyFound(w, x, e.mid);
    if x <= ids[0].mid && ids[x].mid == e.mid {
      return -1;
    }
    if ids[0].mid >= UM_MAX {
      return -2;
    }
    assert forall q | 0 <= q < |s| :: s[q] == w[q + 1];
    WithEntryRises(s, x - 1, e);
    WithEntryGet(s, x - 1, e);
    ShiftIn(ids, x, e);
    EntryInserted(w, ids[..], x, e);
    rc := 0;
  }

  /** `mdb_page_dirty`. */
  method PageDirty(level: Level, p: Id, ptr: nat)
    requires level.Valid() && 0 < p && 2 * p < ID_MAX
    requires Get(level.DirtyList(), p) == None && !Spilled(level.SpillList(), p)
    requires level.dirtyRoom > 0 && |level.DirtyList()| < UM_MAX
    modifies level`dirtyRoom, level.dirty
    ensures level.Valid() && level.SpillList() == old(level.SpillList()) && level.dirtyRoom == old(level.dirtyRoom) - 1
    ensures forall q: Id :: Get(level.DirtyList(), q) == if q == p then Some(ptr) else Get(old(level.DirtyList()), q)
  {
    hide Rising, Get, SpillOk, Spilled;
    ghost var was := level.DirtyList();
    var rc := Insert2(level.dirty, Id2(p, ptr));
    StillSmall(was, level.DirtyList(), p, ptr);
    level.dirtyRoom := level.dirtyRoom - 1;
  }

  lemma StillSmall(s: seq<Id2>, r: seq<Id2>, p: Id, ptr: nat)
    requires Rising(s) && Rising(r) && 2 * p < ID_MAX && forall q | 0 <= q < |s| :: 2 * s[q].mid < ID_MAX
    requires forall q: Id :: Get(r, q) == if q == p then Some(ptr) else Get(s, q)
    ensures forall q | 0 <= q < |r| :: 2 * r[q].mid < ID_MAX
  {
    forall q | 0 <= q < |r| ensures 2 * r[q].mid < ID_MAX {
      GetAt(r, q);
      if r[q].mid != p { GetIs(s, r[q].mid); }
    }
  }

  // ---------------------------------------------------------------- a page comes back from the spill list

  /** The list without the entry at k: cut off at the end, else marked as a deleted slot. */
  function SlotGone(s: seq<Id>, k: nat): seq<Id>
    requires k < |s| && s[k] < ID_MAX
  {
    if k == |s| - 1 then s[..k] else s[k := s[k] + 1]
  }

  lemma SlotGoneOk(s: seq<Id>, k: nat)
    requires SpillOk(s) && k < |s| && s[k] < ID_MAX && s[k] % 2 == 0
    ensures SpillOk(SlotGone(s, k))
    ensures forall p: Id :: Spilled(SlotGone(s, k), p) <==> Spilled(s, p) && 2 * p != s[k]
  {
    var r := SlotGone(s, k);
    forall p: Id ensures Spilled(r, p) <==> Spilled(s, p) && 2 * p != s[k] {
      if Spilled(r, p) {
        var q :| 0 <= q < |r| && r[q] == 2 * p;
        assert q != k && s[q] == 2 * p;
        assert q < k ==> s[q] >= s[k];
        assert q > k ==> s[k] >= s[q];
      }
      if Spilled(s, p) && 2 * p != s[k] {
        var q :| 0 <= q < |s| && s[q] == 2 * p;
        assert r[q] == 2 * p;
      }
    }
  }

  /** Drop entry x of a spill list. */
  method DropSlot(list: IdList, x: nat)
    requires list.Valid() && 1 <= x <= list.ids[0] && list.ids[x] < ID_MAX
    modifies list.ids
    ensures list.Valid() && list.List() == SlotGone(old(list.List()), x - 1)
  {
    ghost var w, s := list.ids[..], list.List();
    assert forall q | 0 <= q < |s| :: s[q] == w[q + 1];
    if x == list.ids[0] {
      list.ids[0] := list.ids[0] - 1;
    } else {
      list.ids[x] := list.ids[x] + 1;
    }
    ghost var r := list.List();
    assert forall q | 0 <= q < |r| :: r[q] == list.ids[..][q + 1];
    assert r == SlotGone(s, x - 1);
  }

  datatype Rc = Success | TxnFull

  /** The position of a page on the spill list of a level, 0 if it is not on it. */
  method SpillSlot(level: Level, p: Id) returns (x: nat)
    requires level.Valid() && 2 * p < ID_MAX
    ensures (x > 0) == Spilled(level.SpillList(), p)
    ensures x > 0 ==> level.spill != null && x <= level.spill.ids[0] && level.spill.ids[x] == 2 * p
  {
    hide Spilled, SpillOk, Rising;
    x := 0;
    if level.spill != null {
      SpillFalls(level.spill.List());
      var y := Search(level.spill.ids, 2 * p);
      SpillFound(level.spill.ids[..], y, p);
      if y <= level.spill.ids[0] && level.spill.ids[y] == 2 * p {
        x := y;
      }
    } else {
      NoneSpilled([]);
    }
  }

  ghost predicate SpilledSomewhere(all: seq<(seq<Id2>, seq<Id>)>, p: Id) {
    exists k :: 0 <= k < |all| && Spilled(all[k].1, p)
  }

  /** One of these transactions has spilled the page. */
  method FindSpilled(levels: seq<Level>, p: Id, ghost all: seq<(seq<Id2>, seq<Id>)>) returns (found: bool)
    requires 2 * p < ID_MAX && |all| == |levels| && forall k | 0 <= k < |levels| :: Holds(levels[k], all[k])
    ensures found == SpilledSomewhere(all, p)
  {
    hide Spilled, SpillOk, Rising;
    var k := 0;
    while k < |levels|
      invariant 0 <= k <= |levels| && forall j | 0 <= j < k :: !Spilled(all[j].1, p)
    {
      assert Holds(levels[k], all[k]);
      var x := SpillSlot(levels[k], p);
      if x > 0 {
        return true;
      }
      k := k + 1;
    }
    found := false;
  }

  /** `mdb_page_unspill`: a page on the spill list of the transaction or of an ancestor is made dirty
      here; only the transaction's own list loses it. */
  method Unspill(level: Level, above: seq<Level>, p: Id, ptr: nat, ghost all: seq<(seq<Id2>, seq<Id>)>)
    returns (rc: Rc, found: bool)
    requires level.Valid() && |all| == |above| && (forall k | 0 <= k < |above| :: Holds(above[k], all[k]))
    requires 0 < p && 2 * p < ID_MAX && Get(level.DirtyList(), p) == None
    requires level.dirtyRoom > 0 ==> |level.DirtyList()| < UM_MAX
    modifies level`dirtyRoom, level.dirty, if level.spill == null then {} else {level.spill.ids}
    ensures found == (Spilled(old(level.SpillList()), p) || SpilledSomewhere(all, p))
    ensures level.Valid() && (rc == TxnFull <==> found && old(level.dirtyRoom) == 0)
    ensures !found || rc == TxnFull ==>
              && level.DirtyList() == old(level.DirtyList()) && level.SpillList() == old(level.SpillList())
              && level.dirtyRoom == old(level.dirtyRoom)
    ensures found && rc == Success ==>
              && level.dirtyRoom == old(level.dirtyRoom) - 1
              && (forall q: Id :: Get(level.DirtyList(), q) == if q == p then Some(ptr) else Get(old(level.DirtyList()), q))
              && (forall q: Id :: Spilled(level.SpillList(), q) <==> Spilled(old(level.SpillList()), q) && q != p)
  {
    hide Rising, Get, SpillOk, Spilled;
    rc := Success;
    var x := SpillSlot(level, p);
    found := x > 0;
    if !found {
      found := FindSpilled(above, p, all);
    }
    if !found {
      return;
    }
    if level.dirtyRoom == 0 {
      return TxnFull, true;
    }
    if x > 0 {
      TakeBack(level, x, p, ptr);
    } else {
      PageDirty(level, p, ptr);
    }
  }

  /** The page is spilled by the transaction itself. */
  method TakeBack(level: Level, x: nat, p: Id, ptr: nat)
    requires level.Valid() && level.spill != null && 1 <= x <= level.spill.ids[0] && level.spill.ids[x] == 2 * p
    requires 0 < p && 2 * p < ID_MAX && Get(level.DirtyList(), p) == None
    requires level.dirtyRoom > 0 && |level.DirtyList()| < UM_MAX
    modifies level`dirtyRoom, level.dirty, level.spill.ids
    ensures level.Valid() && level.dirtyRoom == old(level.dirtyRoom) - 1
    ensures forall q: Id :: Get(level.DirtyList(), q) == if q == p then Some(ptr) else Get(old(level.DirtyList()), q)
    ensures forall q: Id :: Spilled(level.SpillList(), q) <==> Spilled(old(level.SpillList()), q) && q != p
  {
    hide Rising, Get, SpillOk, Spilled;
    ghost var s := level.SpillList();
    assert s[x - 1] == level.spill.ids[x];
    SlotGoneOk(s, x - 1);
    DropSlot(level.spill, x);
    PageDirty(level, p, ptr);
  }

  // ---------------------------------------------------------------- spilling

  /** Entry i of the list of dirty pages may be spilled: it is not to be kept, and no ancestor has
      spilled the page. */
  ghost predicate MaySpill(all: seq<(seq<Id2>, seq<Id>)>, keep: set<Id>, p: Id) {
    p !in keep && !SpilledSomewhere(all, p)
  }

  /** The pages of the entries from i on that may be spilled. */
  ghost function Spills(s: seq<Id2>, i: nat, all: seq<(seq<Id2>, seq<Id>)>, keep: set<Id>): set<Id>
    requires i <= |s|
  {
    set q | i <= q < |s| && MaySpill(all, keep, s[q].mid) :: s[q].mid
  }

  /** The doubled numbers of these pages, largest first. */
  ghost function SpillEntries(s: seq<Id2>, i: nat, all: seq<(seq<Id2>, seq<Id>)>, keep: set<Id>): (r: seq<Id>)
    requires i <= |s| && forall q | 0 <= q < |s| :: 2 * s[q].mid < ID_MAX
    ensures |r| <= |s| - i
    decreases |s| - i
  {
    if i == |s| then []
    else SpillEntries(s, i + 1, all, keep) + if MaySpill(all, keep, s[i].mid) then [2 * s[i].mid] else []
  }

  /** The entries from i on that stay. */
  ghost function Stays(s: seq<Id2>, i: nat, all: seq<(seq<Id2>, seq<Id>)>, keep: set<Id>): seq<Id2>
    requires i <= |s|
    decreases |s| - i
  {
    if i == |s| then []
    else (if MaySpill(all, keep, s[i].mid) then [] else [s[i]]) + Stays(s, i + 1, all, keep)
  }

  /** The entries that stay, all in all. */
  ghost function Left(s: seq<Id2>, i: nat, all: seq<(seq<Id2>, seq<Id>)>, keep: set<Id>): seq<Id2>
    requires i <= |s|
  {
    s[..i] + Stays(s, i, all, keep)
  }

  lemma SpillsStep(s: seq<Id2>, i: nat, all: seq<(seq<Id2>, seq<Id>)>, keep: set<Id>)
    requires Rising(s) && i < |s|
    ensures Spills(s, i, all, keep) == Spills(s, i + 1, all, keep) + if MaySpill(all, keep, s[i].mid) then {s[i].mid} else {}
    ensures s[i].mid !in Spills(s, i + 1, all, keep)
  {}

  lemma LeftStep(s: seq<Id2>, i: nat, all: seq<(seq<Id2>, seq<Id>)>, keep: set<Id>)
    requires i < |s|
    ensures var r := Left(s, i + 1, all, keep);
            && i < |r| && r[i] == s[i]
            && Left(s, i, all, keep) == if MaySpill(all, keep, s[i].mid) then r[..i] + r[i + 1..] else r
  {
    hide MaySpill;
    var r := Left(s, i + 1, all, keep);
    assert r[..i] == s[..i] && r[i + 1..] == Stays(s, i + 1, all, keep);
    if MaySpill(all, keep, s[i].mid) {
      assert [] + Stays(s, i + 1, all, keep) == Stays(s, i + 1, all, keep);
    } else {
      Seqs.TakeSnoc(s, i);
      Seqs.Assoc(s[..i], [s[i]], Stays(s, i + 1, all, keep));
    }
  }

  /** Of one more entry: it stays, or is spilled and gone. */
  lemma LeftGet(r: seq<Id2>, l: seq<Id2>, i: nat, spilled: set<Id>, more: set<Id>, s: seq<Id2>, gone: bool, p: Id)
    requires Rising(r) && i < |r| && l == (if gone then r[..i] + r[i + 1..] else r)
    requires more == spilled + (if gone then {r[i].mid} else {})
    requires Get(r, p) == if p in spilled then None else Get(s, p)
    ensures Get(l, p) == if p in more then None else Get(s, p)
  {
    hide *;
    if gone { WithoutGet(r, i, p); }
  }

  /** As above, for the order and the numbers of entries. */
  lemma LeftSizes(r: seq<Id2>, l: seq<Id2>, i: nat, spilled: set<Id>, more: set<Id>, gone: bool)
    requires Rising(r) && i < |r| && l == (if gone then r[..i] + r[i + 1..] else r)
    requires more == spilled + (if gone then {r[i].mid} else {}) && r[i].mid !in spilled
    ensures Rising(l) && |l| + |more| == |r| + |spilled|
  {
    hide *;
    WithoutGet(r, i, 0);
  }

  lemma LeftNone(s: seq<Id2>, all: seq<(seq<Id2>, seq<Id>)>, keep: set<Id>)
    requires Rising(s)
    ensures Left(s, |s|, all, keep) == s && Spills(s, |s|, all, keep) == {}
  {}

  lemma {:induction false} LeftIs(s: seq<Id2>, i: nat, all: seq<(seq<Id2>, seq<Id>)>, keep: set<Id>)
    requires Rising(s) && i <= |s|
    ensures Rising(Left(s, i, all, keep)) && |Left(s, i, all, keep)| + |Spills(s, i, all, keep)| == |s|
    ensures forall p: Id :: Get(Left(s, i, all, keep), p) == if p in Spills(s, i, all, keep) then None else Get(s, p)
    decreases |s| - i
  {
    hide *;
    if i == |s| {
      LeftNone(s, all, keep);
    } else {
      LeftIs(s, i + 1, all, keep);
      LeftStep(s, i, all, keep);
      SpillsStep(s, i, all, keep);
      var r, l := Left(s, i + 1, all, keep), Left(s, i, all, keep);
      var spilled, more, gone := Spills(s, i + 1, all, keep), Spills(s, i, all, keep), MaySpill(all, keep, s[i].mid);
      LeftSizes(r, l, i, spilled, more, gone);
      forall p: Id ensures Get(l, p) == if p in more then None else Get(s, p) {
        LeftGet(r, l, i, spilled, more, s, gone, p);
      }
    }
  }

  /** The entries written are a spill list with these pages. */
  lemma {:induction false} EntriesAre(s: seq<Id2>, i: nat, all: seq<(seq<Id2>, seq<Id>)>, keep: set<Id>)
    requires Rising(s) && i <= |s| && forall q | 0 <= q < |s| :: 2 * s[q].mid < ID_MAX
    ensures var r := SpillEntries(s, i, all, keep);
            && SpillOk(r) && (forall q | 0 <= q < |r| :: i < |s| && r[q] >= 2 * s[i].mid)
            && forall p: Id :: Spilled(r, p) <==> p in Spills(s, i, all, keep)
    decreases |s| - i
  {
    if i == |s| {
      NoneSpilled([]);
      assert Spills(s, i, all, keep) == {};
    } else {
      EntriesAre(s, i + 1, all, keep);
      SpillsStep(s, i, all, keep);
      EntriesStep(s, i, all, keep);
    }
  }

  lemma EntriesStep(s: seq<Id2>, i: nat, all: seq<(seq<Id2>, seq<Id>)>, keep: set<Id>)
    requires Rising(s) && i < |s| && forall q | 0 <= q < |s| :: 2 * s[q].mid < ID_MAX
    requires var a := SpillEntries(s, i + 1, all, keep);
             && SpillOk(a) && (forall q | 0 <= q < |a| :: i + 1 < |s| && a[q] >= 2 * s[i + 1].mid)
             && forall p: Id :: Spilled(a, p) <==> p in Spills(s, i + 1, all, keep)
    requires Spills(s, i, all, keep) == Spills(s, i + 1, all, keep) + if MaySpill(all, keep, s[i].mid) then {s[i].mid} else {}
    ensures var r := SpillEntries(s, i, all, keep);
            && SpillOk(r) && (forall q | 0 <= q < |r| :: r[q] >= 2 * s[i].mid)
            && forall p: Id :: Spilled(r, p) <==> p in Spills(s, i, all, keep)
  {
    hide Spills, MaySpill;
    var a, r := SpillEntries(s, i + 1, all, keep), SpillEntries(s, i, all, keep);
    if MaySpill(all, keep, s[i].mid) {
      var v := 2 * s[i].mid;
      assert r == a + [v];
      hide SpillEntries;
      forall p: Id ensures Spilled(r, p) <==> Spilled(a, p) || p == s[i].mid {
        OneMore(a, v, p);
      }
    } else {
      assert a + [] == a;
    }
  }

  lemma OneMore(a: seq<Id>, v: Id, p: Id)
    ensures Spilled(a + [v], p) <==> Spilled(a, p) || v == 2 * p
  {
    var r := a + [v];
    if Spilled(a, p) {
      var q :| 0 <= q < |a| && a[q] == 2 * p;
      assert r[q] == 2 * p;
    }
    if v == 2 * p { assert r[|a|] == 2 * p; }
    if Spilled(r, p) {
      var q :| 0 <= q < |r| && r[q] == 2 * p;
      if q < |a| { assert a[q] == 2 * p; }
    }
  }

  /** The part of `mdb_page_flush` that decides which entries stay, from entry i on; what becomes of the
      others on disk is not part of this model. */
  method Flush(level: Level, i: nat, kept: set<Id>, ghost s: seq<Id2>, ghost all: seq<(seq<Id2>, seq<Id>)>, ghost keep: set<Id>)
    requires level.DirtyOk() && level.DirtyList() == s && i <= |s|
    requires forall q | i <= q < |s| :: s[q].mid in kept <==> !MaySpill(all, keep, s[q].mid)
    modifies level`dirtyRoom, level.dirty
    ensures level.DirtyOk() && level.DirtyList() == Left(s, i, all, keep)
    ensures level.dirtyRoom == old(level.dirtyRoom) + |Spills(s, i, all, keep)|
  {
    hide *;
    ghost var dl := level.dirty[..];
    DirtyWas(level, s);
    FlushStart(dl, s, i, all, keep);
    var a := level.dirty;
    var n: nat := a[0].mid;
    var x, j := i, i;
    while x < n
      invariant level.dirtyRoom == old(level.dirtyRoom) && a == level.dirty
      invariant i <= x <= n == |s| && n < a.Length && i <= j <= x && a[0] == dl[0]
      invariant forall q | x < q <= n :: a[q] == s[q - 1]
      invariant a[1..j + 1] + Stays(s, x, all, keep) == Left(s, i, all, keep)
    {
      x := x + 1;
      StaysStep(s, x - 1, all, keep);
      if a[x].mid in kept {
        j := j + 1;
        MovedDown(a[..], j, x, Stays(s, x, all, keep));
        a[j] := a[x];
      }
    }
    StaysEnd(s, all, keep);
    LeftIs(s, i, all, keep);
    assert level.dirty[1..j + 1] + [] == level.dirty[1..j + 1];
    assert j == |Left(s, i, all, keep)|;
    level.dirtyRoom := level.dirtyRoom + (n - j);
    ghost var r := level.dirty[1..j + 1];
    level.dirty[0] := Id2(j, level.dirty[0].ptr);
    assert level.dirty[1..j + 1] == r;
    LeftSmall(s, r, i, all, keep);
    DirtyNow(level, r);
  }

  lemma DirtyWas(level: Level, s: seq<Id2>)
    requires level.DirtyOk() && level.DirtyList() == s
    ensures UM_MAX < level.dirty.Length <= ID_MAX && IsList2(level.dirty[..]) && s == Entries(level.dirty[..])
    ensures Rising(s) && forall q | 0 <= q < |s| :: 2 * s[q].mid < ID_MAX
  {}

  /** The dirty list in its array, and the spill list. */
  lemma LevelWas(level: Level)
    requires level.Valid() && level.spill != null
    ensures level.DirtyOk() && IsList2(level.dirty[..]) && level.SpillsOk() && 0 <= UM_MAX
    ensures level.spill.Valid() && level.SpillList() == level.spill.List()
    ensures var s := level.DirtyList();
            && level.dirty.Length > |s| == level.dirty[0].mid && (forall q | 0 < q <= |s| :: level.dirty[q] == s[q - 1])
            && Rising(s) && forall q | 0 <= q < |s| :: 2 * s[q].mid < ID_MAX
  {
    hide Rising, Apart;
  }

  lemma DirtyNow(level: Level, r: seq<Id2>)
    requires UM_MAX < level.dirty.Length <= ID_MAX && level.dirty[0].mid == |r| < level.dirty.Length
    requires level.dirty[1..|r| + 1] == r && Rising(r) && forall q | 0 <= q < |r| :: 2 * r[q].mid < ID_MAX
    ensures level.DirtyOk() && level.DirtyList() == r
  {}

  lemma FlushStart(dl: seq<Id2>, s: seq<Id2>, i: nat, all: seq<(seq<Id2>, seq<Id>)>, keep: set<Id>)
    requires IsList2(dl) && s == Entries(dl) && i <= |s|
    ensures dl[0].mid == |s| < |dl| && forall q | i < q <= |s| :: dl[q] == s[q - 1]
    ensures dl[1..i + 1] + Stays(s, i, all, keep) == Left(s, i, all, keep)
  {
    assert dl[1..i + 1] == s[..i];
  }

  lemma StaysStep(s: seq<Id2>, x: nat, all: seq<(seq<Id2>, seq<Id>)>, keep: set<Id>)
    requires x < |s|
    ensures Stays(s, x, all, keep) == (if MaySpill(all, keep, s[x].mid) then [] else [s[x]]) + Stays(s, x + 1, all, keep)
  {}

  lemma StaysEnd(s: seq<Id2>, all: seq<(seq<Id2>, seq<Id>)>, keep: set<Id>)
    ensures Stays(s, |s|, all, keep) == []
  {}

  /** The entry at x, moved to the end of those that stay. */
  lemma MovedDown(a: seq<Id2>, j: nat, x: nat, rest: seq<Id2>)
    requires 1 <= j <= x < |a|
    ensures a[j := a[x]][1..j + 1] + rest == a[1..j] + ([a[x]] + rest)
  {}

  lemma LeftSmall(s: seq<Id2>, r: seq<Id2>, i: nat, all: seq<(seq<Id2>, seq<Id>)>, keep: set<Id>)
    requires Rising(s) && Rising(r) && i <= |s| && forall q | 0 <= q < |s| :: 2 * s[q].mid < ID_MAX
    requires forall p: Id :: Get(r, p) == if p in Spills(s, i, all, keep) then None else Get(s, p)
    ensures forall q | 0 <= q < |r| :: 2 * r[q].mid < ID_MAX
  {
    hide Spills;
    forall q | 0 <= q < |r| ensures 2 * r[q].mid < ID_MAX {
      GetAt(r, q);
      GetIs(s, r[q].mid);
    }
  }

  /** The spill list of the transaction is not shared with an ancestor. */
  ghost predicate OwnSpills(level: Level, above: seq<Level>)
    reads level, level.spill, set k | 0 <= k < |above| :: above[k]
    reads set k | 0 <= k < |above| && above[k].spill != null :: above[k].spill
  {
    forall k | 0 <= k < |above| ::
      above[k].spill != level.spill
      && (above[k].spill != null && level.spill != null ==> above[k].spill.ids != level.spill.ids)
  }

  /** Add a page to the spill list, unless an ancestor has it on its own. */
  method SpillOne(level: Level, above: seq<Level>, p: Id, ghost all: seq<(seq<Id2>, seq<Id>)>) returns (spilled: bool)
    requires level.spill != null && level.spill.Valid() && 2 * p < ID_MAX && level.spill.ids.Length + UM_MAX < INT_MAX
    requires |all| == |above| && (forall k | 0 <= k < |above| :: Holds(above[k], all[k])) && OwnSpills(level, above)
    modifies level.spill, level.spill.ids
    ensures spilled == !SpilledSomewhere(all, p)
    ensures level.spill.Valid() && (level.spill.ids == old(level.spill.ids) || fresh(level.spill.ids))
    ensures level.spill.List() == if spilled then old(level.spill.List()) + [2 * p] else old(level.spill.List())
    ensures level.spill.ids.Length <= old(level.spill.ids.Length)
            || level.spill.ids.Length == |old(level.spill.List())| + 1 + UM_MAX
    ensures (forall k | 0 <= k < |above| :: Holds(above[k], all[k])) && OwnSpills(level, above)
  {
    hide SpilledSomewhere, SpillOk, Rising, Get, Spilled, Apart;
    var found := FindSpilled(above, p, all);
    spilled := !found;
    if spilled {
      level.spill.Append(2 * p);
    }
  }

  /** From the tail of the dirty list, write the numbers of pages that may be spilled to the spill list,
      `need` of them if there are as many. */
  method SpillTail(level: Level, above: seq<Level>, keep: set<Id>, need0: nat, ghost all: seq<(seq<Id2>, seq<Id>)>)
    returns (i: nat, kept: set<Id>)
    requires level.Valid() && level.spill != null && |all| == |above| && forall k | 0 <= k < |above| :: Holds(above[k], all[k])
    requires OwnSpills(level, above)
    requires level.spill.ids.Length + |level.SpillList()| + level.dirty.Length + 2 * UM_MAX < INT_MAX
    modifies level.spill, level.spill.ids
    ensures level.spill.Valid() && (level.spill.ids == old(level.spill.ids) || fresh(level.spill.ids))
    ensures i <= |level.DirtyList()| && level.spill.ids.Length <= INT_MAX
    ensures level.DirtyOk() && level.spill.List() == old(level.SpillList()) + SpillEntries(level.DirtyList(), i, all, keep)
    ensures var s := level.DirtyList();
            && (forall q | i <= q < |s| :: s[q].mid in kept <==> !MaySpill(all, keep, s[q].mid))
            && |Spills(s, i, all, keep)| <= need0 && (|Spills(s, i, all, keep)| < need0 ==> i == 0)
  {
    hide *;
    LevelWas(level);
    ghost var s, base := level.DirtyList(), level.SpillList();
    ghost var len0 := level.spill.ids.Length;
    var need: nat := need0;
    i, kept := level.dirty[0].mid, keep;
    NothingSpilled(s, all, keep);
    assert base + [] == base;
    while i > 0 && need > 0
      invariant i <= |s| && level.dirty[..] == old(level.dirty[..]) && level.dirty == old(level.dirty)
      invariant level.spill == old(level.spill) && level.spill.Valid()
      invariant level.spill.ids == old(level.spill.ids) || fresh(level.spill.ids)
      invariant level.spill.ids.Length <= len0 || level.spill.ids.Length <= |base| + |s| + 1 + UM_MAX
      invariant level.spill.List() == base + SpillEntries(s, i, all, keep)
      invariant need0 == need + |Spills(s, i, all, keep)|
      invariant forall q | i <= q < |s| :: s[q].mid in kept <==> !MaySpill(all, keep, s[q].mid)
      invariant (forall k | 0 <= k < |above| :: Holds(above[k], all[k])) && OwnSpills(level, above)
      invariant kept >= keep && forall q | 0 <= q < i :: s[q].mid in kept ==> s[q].mid in keep
      decreases i
    {
      var p := level.dirty[i].mid;
      assert p == s[i - 1].mid;
      TailStep(s, i - 1, all, keep);
      Distinct2(s, i - 1);
      if p !in kept {
        var spilled := SpillOne(level, above, p, all);
        MayIs(all, keep, p);
        if spilled {
          Seqs.Assoc(base, SpillEntries(s, i, all, keep), [2 * p]);
          need := need - 1;
        } else {
          kept := kept + {p};
        }
      } else {
        MayIs(all, keep, p);
      }
      i := i - 1;
    }
  }

  lemma NothingSpilled(s: seq<Id2>, all: seq<(seq<Id2>, seq<Id>)>, keep: set<Id>)
    requires forall q | 0 <= q < |s| :: 2 * s[q].mid < ID_MAX
    ensures SpillEntries(s, |s|, all, keep) == [] && Spills(s, |s|, all, keep) == {}
  {}

  lemma MayIs(all: seq<(seq<Id2>, seq<Id>)>, keep: set<Id>, p: Id)
    ensures MaySpill(all, keep, p) <==> p !in keep && !SpilledSomewhere(all, p)
  {}

  lemma TailStep(s: seq<Id2>, i: nat, all: seq<(seq<Id2>, seq<Id>)>, keep: set<Id>)
    requires Rising(s) && i < |s| && forall q | 0 <= q < |s| :: 2 * s[q].mid < ID_MAX
    ensures SpillEntries(s, i, all, keep)
         == if MaySpill(all, keep, s[i].mid) then SpillEntries(s, i + 1, all, keep) + [2 * s[i].mid] else SpillEntries(s, i + 1, all, keep)
    ensures |Spills(s, i, all, keep)| == |Spills(s, i + 1, all, keep)| + if MaySpill(all, keep, s[i].mid) then 1 else 0
  {
    SpillsStep(s, i, all, keep);
    assert SpillEntries(s, i + 1, all, keep) + [] == SpillEntries(s, i + 1, all, keep);
  }

  lemma Distinct2(s: seq<Id2>, i: nat)
    requires Rising(s) && i < |s|
    ensures forall q | 0 <= q < |s| && q != i :: s[q].mid != s[i].mid
  {}

  /** Deleted slots leave the spill list. */
  method Purge(list: IdList)
    requires list.Valid() && SpillOk(list.List())
    modifies list.ids
    ensures list.Valid() && SpillOk(list.List()) && |list.List()| <= |old(list.List())|
    ensures forall p: Id :: Spilled(list.List(), p) <==> Spilled(old(list.List()), p)
  {
    ghost var s := list.List();
    var n := list.ids[0];
    Squash(list.ids, 0, n);
    PurgedIs(s, list.List());
  }

  lemma PurgedIs(s: seq<Id>, r: seq<Id>)
    requires SpillOk(s) && r == Evens(s)
    ensures SpillOk(r) && |r| <= |s| && forall p: Id :: Spilled(r, p) <==> Spilled(s, p)
  {
    EvensOk(s, s, 0, |s|);
    EvensIs(s);
    assert s[0..|s|] == s && s[..0] + Evens(s) == Evens(s);
    hide SpillOk, Evens;
    forall p: Id ensures Spilled(r, p) <==> Spilled(s, p) {
      SpilledMember(s, p);
      SpilledMember(r, p);
      DoubleEven(p);
    }
  }

  lemma DoubleEven(p: Id)
    ensures 2 * p <= ID_MAX ==> (2 * p) % 2 == 0
  {}

  lemma SpilledMember(s: seq<Id>, p: Id)
    ensures Spilled(s, p) <==> 2 * p <= ID_MAX && 2 * p in s
  {
    if Spilled(s, p) {
      var q :| 0 <= q < |s| && s[q] == 2 * p;
    }
  }

  /** What spilling leaves: these pages are on the spill list and no longer on the dirty list. */
  ghost predicate Moved(dirty: seq<Id2>, spill: seq<Id>, d0: seq<Id2>, s0: seq<Id>, out: set<Id>) {
    && (forall p: Id :: Get(dirty, p) == if p in out then None else Get(d0, p))
    && (forall p: Id :: Spilled(spill, p) <==> Spilled(s0, p) || p in out)
  }

  /** `mdb_page_spill`: `estimate` is what the operation may need, `keep` the pages flagged P_LOOSE or
      P_KEEP. Does nothing while there is room for the estimate. */
  method PageSpill(level: Level, above: seq<Level>, estimate: nat, keep: set<Id>, ghost all: seq<(seq<Id2>, seq<Id>)>)
    returns (ghost out: set<Id>)
    requires level.Valid() && |all| == |above| && (forall k | 0 <= k < |above| :: Holds(above[k], all[k]))
    requires OwnSpills(level, above)
    requires level.spill != null ==> level.spill.ids.Length + |level.SpillList()| + level.dirty.Length + 2 * UM_MAX < INT_MAX
    requires level.dirty.Length + 4 * UM_MAX < INT_MAX
    modifies level, level.dirty, level.spill, if level.spill == null then {} else {level.spill.ids}
    ensures level.Valid() && level.dirty == old(level.dirty)
    ensures old(level.dirtyRoom) > estimate ==> out == {} && level.dirtyRoom == old(level.dirtyRoom)
    ensures Moved(level.DirtyList(), level.SpillList(), old(level.DirtyList()), old(level.SpillList()), out)
    ensures level.dirtyRoom == old(level.dirtyRoom) + |out|
    ensures ChosenToSpill(old(level.DirtyList()), level.DirtyList(), out, all, keep)
    ensures old(level.dirtyRoom) <= estimate ==>
              |out| == (if estimate < UM_MAX / 8 then UM_MAX / 8 else estimate) || NoneToSpill(level.DirtyList(), all, keep)
  {
    hide Rising, Get, SpillOk, Spilled, MaySpill, Apart, Holds, OwnSpills, Spills, SpillEntries, Moved, ChosenToSpill, NoneToSpill;
    ghost var s, s0 := level.DirtyList(), level.SpillList();
    out := {};
    if level.dirtyRoom > estimate {
      NothingMoved(s, s0);
      NoneChosen(s, all, keep);
      return;
    }
    ReadyList(level, above, all);
    ghost var base := level.SpillList();
    var need := if estimate < UM_MAX / 8 then UM_MAX / 8 else estimate;
    var i, kept := SpillTail(level, above, keep, need, all);
    out := Spills(s, i, all, keep);
    EntriesAre(s, i, all, keep);
    LeftIs(s, i, all, keep);
    SpillsDirty(s, base, i, all, keep);
    SortJoined(level.spill, base, SpillEntries(s, i, all, keep));
    Flush(level, i, kept, s, all, keep);
    MovedApart(level.DirtyList(), level.SpillList(), s, s0, out);
    Chosen(s, i, level.DirtyList(), all, keep);
    if |out| < need {
      AllSpilled(s, all, keep);
      NoneToSpillIf(level.DirtyList(), all, keep);
    }
  }

  /** Which pages are spilled: none that is to be kept or that an ancestor has spilled, and from the end of the list on. */
  ghost predicate ChosenToSpill(d0: seq<Id2>, dirty: seq<Id2>, out: set<Id>, all: seq<(seq<Id2>, seq<Id>)>, keep: set<Id>) {
    && (forall p: Id | p in out ::
          Get(d0, p) != None && p !in keep && forall k | 0 <= k < |all| :: !Spilled(all[k].1, p))
    && (forall p: Id, q: Id | p in out && p < q && Get(dirty, q) != None ::
          q in keep || exists k :: 0 <= k < |all| && Spilled(all[k].1, q))
  }

  ghost predicate NoneToSpill(dirty: seq<Id2>, all: seq<(seq<Id2>, seq<Id>)>, keep: set<Id>) {
    forall p: Id | Get(dirty, p) != None :: p in keep || exists k :: 0 <= k < |all| && Spilled(all[k].1, p)
  }

  lemma NoneToSpillIf(dirty: seq<Id2>, all: seq<(seq<Id2>, seq<Id>)>, keep: set<Id>)
    ensures (forall p: Id | Get(dirty, p) != None :: !MaySpill(all, keep, p)) ==> NoneToSpill(dirty, all, keep)
  {
    hide Get, Spilled;
  }

  lemma NoneChosen(s: seq<Id2>, all: seq<(seq<Id2>, seq<Id>)>, keep: set<Id>)
    ensures ChosenToSpill(s, s, {}, all, keep)
  {
    hide Get, Spilled;
  }

  lemma Chosen(s: seq<Id2>, i: nat, left: seq<Id2>, all: seq<(seq<Id2>, seq<Id>)>, keep: set<Id>)
    requires Rising(s) && i <= |s|
    requires forall p: Id :: Get(left, p) == if p in Spills(s, i, all, keep) then None else Get(s, p)
    requires forall p | p in Spills(s, i, all, keep) :: Get(s, p) != None && MaySpill(all, keep, p)
    ensures ChosenToSpill(s, left, Spills(s, i, all, keep), all, keep)
  {
    LastOnes(s, i, left, all, keep);
    hide Get, Spilled, Spills;
  }

  /** What is left behind a page that is spilled may not be spilled. */
  lemma LastOnes(s: seq<Id2>, i: nat, left: seq<Id2>, all: seq<(seq<Id2>, seq<Id>)>, keep: set<Id>)
    requires Rising(s) && i <= |s|
    requires forall p: Id :: Get(left, p) == if p in Spills(s, i, all, keep) then None else Get(s, p)
    ensures forall p: Id, q: Id | p in Spills(s, i, all, keep) && p < q && Get(left, q) != None :: !MaySpill(all, keep, q)
  {
    hide MaySpill;
    forall p: Id, q: Id | p in Spills(s, i, all, keep) && p < q && Get(left, q) != None ensures !MaySpill(all, keep, q) {
      var k :| i <= k < |s| && MaySpill(all, keep, s[k].mid) && s[k].mid == p;
      assert Get(s, q) != None;
      var j := PlaceOf(s, q);
    }
  }

  lemma PlaceOf(s: seq<Id2>, q: Id) returns (j: nat)
    requires Get(s, q) != None
    ensures j < |s| && s[j].mid == q
  {
    hide Get;
    if forall i | 0 <= i < |s| :: s[i].mid != q { GetNone(s, q); }
    j :| j < |s| && s[j].mid == q;
  }

  /** The spill list, allocated or without its deleted slots. */
  method ReadyList(level: Level, above: seq<Level>, ghost all: seq<(seq<Id2>, seq<Id>)>)
    requires level.Valid() && |all| == |above| && (forall k | 0 <= k < |above| :: Holds(above[k], all[k]))
    requires OwnSpills(level, above)
    modifies level`spill, if level.spill == null then {} else {level.spill.ids}
    ensures level.Valid() && level.spill != null && level.DirtyList() == old(level.DirtyList())
    ensures (level.spill == old(level.spill) && level.spill.ids == old(level.spill.ids))
            || (old(level.spill) == null && fresh(level.spill) && fresh(level.spill.ids) && level.spill.ids.Length == UM_MAX + 1)
    ensures |level.SpillList()| <= |old(level.SpillList())|
    ensures forall p: Id :: Spilled(level.SpillList(), p) <==> Spilled(old(level.SpillList()), p)
    ensures (forall k | 0 <= k < |above| :: Holds(above[k], all[k])) && OwnSpills(level, above)
  {
    hide SpillOk, Spilled, Rising, Get;
    if level.spill == null {
      level.spill := new IdList(UM_MAX);
      EmptySpills();
    } else {
      Purge(level.spill);
    }
  }

  lemma EmptySpills()
    ensures SpillOk([]) && forall p: Id :: !Spilled([], p)
  {}

  /** The two parts of the list in one order. */
  method SortJoined(list: IdList, ghost a: seq<Id>, ghost b: seq<Id>)
    requires list.Valid() && list.List() == a + b && SpillOk(a) && SpillOk(b) && list.ids.Length <= INT_MAX
    requires forall p: Id :: !(Spilled(a, p) && Spilled(b, p))
    modifies list.ids
    ensures list.Valid() && SpillOk(list.List())
    ensures forall p: Id :: Spilled(list.List(), p) <==> Spilled(a, p) || Spilled(b, p)
  {
    hide SpillOk, Spilled;
    ghost var w := list.ids[..];
    Sort(list.ids);
    SortedIds(w, list.ids[..]);
    SpillsJoined(a, b, list.List());
  }

  lemma NothingMoved(d: seq<Id2>, s: seq<Id>)
    ensures Moved(d, s, d, s, {})
  {}

  /** The pages spilled were dirty, and so not on the spill list. */
  lemma SpillsDirty(s: seq<Id2>, base: seq<Id>, i: nat, all: seq<(seq<Id2>, seq<Id>)>, keep: set<Id>)
    requires Rising(s) && i <= |s| && Apart(s, base)
    ensures forall p | p in Spills(s, i, all, keep) :: Get(s, p) != None && MaySpill(all, keep, p) && !Spilled(base, p)
  {
    hide MaySpill, Spilled, Get;
    forall p | p in Spills(s, i, all, keep) ensures Get(s, p) != None && MaySpill(all, keep, p) && !Spilled(base, p) {
      var q :| i <= q < |s| && s[q].mid == p && MaySpill(all, keep, p);
      GetAt(s, q);
    }
  }

  lemma MovedApart(dirty: seq<Id2>, spill: seq<Id>, d0: seq<Id2>, s0: seq<Id>, out: set<Id>)
    requires Apart(d0, s0) && (forall p: Id :: Get(dirty, p) == if p in out then None else Get(d0, p))
    requires forall p: Id :: Spilled(spill, p) <==> Spilled(s0, p) || p in out
    ensures Moved(dirty, spill, d0, s0, out) && Apart(dirty, spill)
  {}

  lemma AllSpilled(s: seq<Id2>, all: seq<(seq<Id2>, seq<Id>)>, keep: set<Id>)
    requires Rising(s)
    ensures forall p: Id | Get(Left(s, 0, all, keep), p) != None :: !MaySpill(all, keep, p)
  {
    hide MaySpill, Get;
    LeftIs(s, 0, all, keep);
    forall p: Id | Get(Left(s, 0, all, keep), p) != None ensures !MaySpill(all, keep, p) {
      GetIs(s, p);
    }
  }

  /** The pages on a spill list. */
  ghost function SpillSet(s: seq<Id>): set<Id> {
    set q | 0 <= q < |s| && s[q] % 2 == 0 :: Half(s[q])
  }

  function Half(v: Id): Id { v / 2 }

  lemma InSpillSet(s: seq<Id>, p: Id)
    ensures p in SpillSet(s) <==> Spilled(s, p)
  {
    if Spilled(s, p) {
      var q :| 0 <= q < |s| && s[q] == 2 * p;
      assert Half(s[q]) == p && s[q] % 2 == 0;
    }
    if p in SpillSet(s) {
      var q :| 0 <= q < |s| && s[q] % 2 == 0 && Half(s[q]) == p;
      assert s[q] == 2 * p;
    }
  }

  /** So spilling is the step that `RoomKept` is about: mt_dirty_room stays right. */
  lemma SpillIsStep(d: seq<Id2>, s: seq<Id>, d0: seq<Id2>, s0: seq<Id>, out: set<Id>, pd: set<Id>, ps: set<Id>, room: int)
    requires Rising(d) && Rising(d0) && Moved(d, s, d0, s0, out)
    requires forall p | p in out :: Get(d0, p) != None && p !in ps
    requires RoomOk(Pages(pd, ps, Mids(d0), SpillSet(s0), room))
    ensures RoomOk(Pages(pd, ps, Mids(d), SpillSet(s), room + |out|))
  {
    hide Rising, Get, Spilled, Mids, SpillSet, RoomOk;
    forall p: Id ensures p in Mids(d) <==> p in Mids(d0) - out {
      MidsGet(d, p);
      MidsGet(d0, p);
    }
    forall p: Id ensures p in SpillSet(s) <==> p in SpillSet(s0) + out {
      InSpillSet(s, p);
      InSpillSet(s0, p);
    }
    forall p | p in out ensures p in Mids(d0) { MidsGet(d0, p); }
    assert Mids(d) == Mids(d0) - out && SpillSet(s) == SpillSet(s0) + out;
    RoomKept(Pages(pd, ps, Mids(d0), SpillSet(s0), room), Spill(out));
  }
}
