/** The lists a transaction saves are what the protocol asks of a commit. */
module MvccPages {
  import M = Mvcc
  import Moves = PageMoves
  import opened IdSort
  import opened IdLists
  import opened TxnPages
  import opened FreelistSave
  import opened WrittenRecords

  /** The freeDB as a map from keys to sets of pages. */
  ghost function FreeMap(db: seq<Record>): map<nat, set<nat>>
    requires Ascending(db)
  {
    map i | 0 <= i < |db| :: db[i].id := Moves.SetOf(db[i].pages)
  }

  lemma PageSetSome(s: seq<Id>)
    requires s != []
    ensures Moves.SetOf(s) != {}
  {
    assert s[0] in s;
    assert s[0] as nat in Moves.SetOf(s);
  }

  lemma FreeMapAt(db: seq<Record>, i: nat)
    requires Ascending(db) && i < |db|
    ensures db[i].id in FreeMap(db) && FreeMap(db)[db[i].id] == Moves.SetOf(db[i].pages)
  {
    hide Moves.SetOf;
  }

  lemma FreeMapKey(db: seq<Record>, k: nat) returns (i: nat)
    requires Ascending(db) && k in FreeMap(db)
    ensures i < |db| && db[i].id == k && FreeMap(db)[k] == Moves.SetOf(db[i].pages)
  {
    hide Moves.SetOf;
    i :| 0 <= i < |db| && db[i].id == k;
  }

  /** A page of the stack of lists is in one of them, and in one only. */
  lemma {:induction false} StackedHas(lists: seq<seq<Id>>, p: Id) returns (i: nat)
    requires p in Stacked(lists)
    ensures i < |lists| && p in lists[i]
    decreases |lists|
  {
    if p in lists[0] {
      i := 0;
    } else {
      var j := StackedHas(lists[1..], p);
      i := j + 1;
    }
  }

  lemma {:induction false} StackedPart(lists: seq<seq<Id>>, i: nat)
    requires i < |lists|
    ensures forall p | p in lists[i] :: p in Stacked(lists)
    decreases |lists|
  {
    if i > 0 {
      StackedPart(lists[1..], i - 1);
    }
  }

  lemma {:induction false} StackedOnce(lists: seq<seq<Id>>, i: nat, j: nat, p: Id)
    requires i < j < |lists| && p in lists[i] && Strict(Stacked(lists))
    ensures p !in lists[j]
    decreases |lists|
  {
    var rest := Stacked(lists[1..]);
    StrictParts(rest, lists[0]);
    if i > 0 {
      StackedOnce(lists[1..], i - 1, j - 1, p);
    } else if p in lists[j] {
      StackedPart(lists[1..], j - 1);
      var a :| 0 <= a < |rest| && rest[a] == p;
      var b :| 0 <= b < |lists[0]| && lists[0][b] == p;
      SameTwice(rest, lists[0], a, b);
    }
  }

  lemma SameTwice(a: seq<Id>, b: seq<Id>, p: nat, q: nat)
    requires Strict(a + b) && p < |a| && q < |b|
    ensures a[p] != b[q]
  {
    assert (a + b)[p] > (a + b)[|a| + q];
  }

  /** `mdb_freelist_save` leaves a freeDB that `Mvcc.SavedFree` allows, so that a commit with it
      keeps the protocol's invariant. */
  lemma SaveMeetsProtocol(txn: Txn, db0: seq<Record>, w: M.Writer)
    requires Saved(txn, db0) && Records(db0, txn.t) && Strict(txn.head) && txn.pglast < txn.t
    requires w.t == txn.t && w.last == txn.pglast && w.head == Moves.SetOf(txn.head) && w.freed == Moves.SetOf(txn.freed)
    requires w.base.free == FreeMap(db0) && forall i | 0 <= i < |db0| :: db0[i].id < txn.t
    ensures M.SavedFree(w, FreeMap(txn.db))
  {
    hide Listed, FilePages, Strict, Stacked, Low;
    var lists: seq<seq<Id>> :| Stacked(lists) == txn.head && CutInto(txn.db, txn.pglast, lists);
    LowFacts(txn.db, txn.pglast);
    KeysAllowed(txn.db, db0, w);
    UnconsumedKept(txn.db, db0, w);
    OwnKept(txn.db, txn.freed, w);
    HeadCut(txn.db, lists, txn.head, w);
  }

  lemma KeysAllowed(db: seq<Record>, db0: seq<Record>, w: M.Writer)
    requires Records(db, w.t) && Records(db0, w.t) && SameAbove(db0, db, w.last, w.t) && w.base.free == FreeMap(db0)
    ensures forall k | k in FreeMap(db) :: 1 <= k && (k <= w.last || k == w.t || k in w.base.free)
  {
    hide Moves.SetOf, Strict;
    forall k | k in FreeMap(db) ensures 1 <= k && (k <= w.last || k == w.t || k in w.base.free) {
      var i := FreeMapKey(db, k);
      if w.last < k < w.t {
        assert db[i] in db0;
        var j :| 0 <= j < |db0| && db0[j] == db[i];
        FreeMapAt(db0, j);
      }
    }
  }

  lemma UnconsumedKept(db: seq<Record>, db0: seq<Record>, w: M.Writer)
    requires Records(db, w.t) && Records(db0, w.t) && SameAbove(db0, db, w.last, w.t) && w.base.free == FreeMap(db0)
    requires forall i | 0 <= i < |db0| :: db0[i].id < w.t
    ensures w.t !in w.base.free
    ensures forall k | k in w.base.free && k > w.last :: k in FreeMap(db) && FreeMap(db)[k] == w.base.free[k]
  {
    hide Moves.SetOf, Strict;
    if w.t in w.base.free { var i := FreeMapKey(db0, w.t); }
    forall k | k in w.base.free && k > w.last ensures k in FreeMap(db) && FreeMap(db)[k] == w.base.free[k] {
      var i := FreeMapKey(db0, k);
      assert db0[i] in db;
      var j :| 0 <= j < |db| && db[j] == db0[i];
      FreeMapAt(db, j);
    }
  }

  lemma OwnKept(db: seq<Record>, freed: seq<Id>, w: M.Writer)
    requires Records(db, w.t) && OwnSaved(db, w.t, freed) && w.freed == Moves.SetOf(freed)
    ensures if w.freed != {} then w.t in FreeMap(db) && FreeMap(db)[w.t] == w.freed else w.t !in FreeMap(db)
  {
    hide Strict;
    if freed != [] {
      FreeMapAt(db, |db| - 1);
      PageSetSome(freed);
    } else if w.t in FreeMap(db) {
      var i := FreeMapKey(db, w.t);
    }
  }

  lemma PageSetHas(s: seq<Id>, p: nat)
    ensures p in Moves.SetOf(s) <==> exists i :: 0 <= i < |s| && s[i] as nat == p
  {
    if p in Moves.SetOf(s) {
      var x :| x in s && x as nat == p;
      var i :| 0 <= i < |s| && s[i] == x;
    }
    if i :| 0 <= i < |s| && s[i] as nat == p {
      assert s[i] in s;
    }
  }

  /** Every page of a record up to me_pglast is one of me_pghead. */
  lemma CutWithin(db: seq<Record>, lists: seq<seq<Id>>, head: seq<Id>, last: nat, k: nat)
    requires Ascending(db) && Stacked(lists) == head && CutInto(db, last, lists) && k in FreeMap(db) && k <= last
    ensures FreeMap(db)[k] <= Moves.SetOf(head)
  {
    hide Stacked, Low, CutInto, FreeMap;
    var i := ListOf(db, lists, last, k);
    if i < |lists| { StackedPart(lists, i); }
  }

  /** Every page of me_pghead is in a record up to me_pglast. */
  lemma CutHas(db: seq<Record>, lists: seq<seq<Id>>, head: seq<Id>, last: nat, p: Id) returns (k: nat)
    requires Ascending(db) && Stacked(lists) == head && CutInto(db, last, lists) && p in head
    ensures k in FreeMap(db) && k <= last && p as nat in FreeMap(db)[k]
  {
    hide Stacked, FreeMap;
    LowFacts(db, last);
    var i := StackedHas(lists, p);
    FreeMapAt(db, i);
    k := db[i].id;
  }

  /** No page is in two records up to me_pglast. */
  lemma CutApart(db: seq<Record>, lists: seq<seq<Id>>, head: seq<Id>, last: nat, k: nat, k': nat)
    requires Ascending(db) && Stacked(lists) == head && Strict(head) && CutInto(db, last, lists)
    requires k in FreeMap(db) && k' in FreeMap(db) && k < k' <= last
    ensures FreeMap(db)[k] !! FreeMap(db)[k']
  {
    hide Stacked, Strict, Low, CutInto, FreeMap;
    var i := ListOf(db, lists, last, k);
    var j := ListOf(db, lists, last, k');
    assert i < j by {
      assert db[i].id < db[j].id;
    }
    if j < |lists| {
      forall p | p in lists[i] ensures p !in lists[j] {
        StackedOnce(lists, i, j, p);
      }
    }
  }

  lemma HeadCut(db: seq<Record>, lists: seq<seq<Id>>, head: seq<Id>, w: M.Writer)
    requires Records(db, w.t) && Stacked(lists) == head && Strict(head) && CutInto(db, w.last, lists)
    requires w.head == Moves.SetOf(head)
    ensures forall k | k in FreeMap(db) && k <= w.last :: FreeMap(db)[k] <= w.head
    ensures forall p | p in w.head :: exists k :: k in FreeMap(db) && k <= w.last && p in FreeMap(db)[k]
    ensures forall k, k' | k in FreeMap(db) && k' in FreeMap(db) && k < k' <= w.last :: FreeMap(db)[k] !! FreeMap(db)[k']
  {
    assert Ascending(db);
    hide *;
    forall k | k in FreeMap(db) && k <= w.last ensures FreeMap(db)[k] <= w.head {
      CutWithin(db, lists, head, w.last, k);
    }
    forall p | p in w.head ensures exists k :: k in FreeMap(db) && k <= w.last && p in FreeMap(db)[k] {
      PageSetHas(head, p);
      var i :| 0 <= i < |head| && head[i] as nat == p;
      var k := CutHas(db, lists, head, w.last, head[i]);
    }
    forall k, k' | k in FreeMap(db) && k' in FreeMap(db) && k < k' <= w.last
      ensures FreeMap(db)[k] !! FreeMap(db)[k']
    {
      CutApart(db, lists, head, w.last, k, k');
    }
  }

  /** The list under a key up to me_pglast. */
  lemma ListOf(db: seq<Record>, lists: seq<seq<Id>>, last: nat, k: nat) returns (i: nat)
    requires Ascending(db) && CutInto(db, last, lists) && k in FreeMap(db) && k <= last
    ensures i < Low(db, last) <= |db| && db[i].id == k && FreeMap(db)[k] == Moves.SetOf(db[i].pages)
    ensures db[i].pages == if i < |lists| then lists[i] else []
  {
    hide Moves.SetOf;
    i := FreeMapKey(db, k);
    LowFacts(db, last);
  }
}
